/** The sliding-window rate limiter (app/infra/rate_limiter.py): a sorted set of recent admissions that
  the script prunes, counts and extends. The reference is the full log of admissions. */
module RateLimiter {
  import opened Common

  /** A set member: the admission's time and a sequence number, as text in the source. */
  datatype Member = Member(now: real, seqNo: nat)

  /** The two Redis keys: the scored set and the sequence counter, which expire together. */
  datatype Store = Store(zset: map<Member, real>, counter: nat, expiresAt: real)

  datatype Params = Params(window: real, limit: int)

  /** One request: the caller's clock, and the clock by which Redis expires keys. */
  datatype Request = Request(now: real, server: real)

  const EMPTY := Store(map[], 0, 0.0)

  // ---------------------------------------------------------------- the script

  /** Both keys are gone once their time to live has passed. */
  function Expire(s: Store, server: real): Store {
    if server >= s.expiresAt then EMPTY else s
  }

  /** Without the members scored from 0 to the cutoff. */
  function Prune(zset: map<Member, real>, cutoff: real): map<Member, real> {
    map m | m in zset && !(0.0 <= zset[m] <= cutoff) :: zset[m]
  }

  function Script(p: Params, s: Store, r: Request): (Store, bool, int) {
    var live := Expire(s, r.server);
    var kept := Prune(live.zset, r.now - p.window);
    if |kept| >= p.limit then (live.(zset := kept), false, 0)
    else
      var member := Member(r.now, live.counter + 1);
      (Store(kept[member := r.now], live.counter + 1, r.server + p.window + 1.0),
       true, p.limit - |kept| - 1)
  }

  class SlidingWindow {
    var zset: map<Member, real>
    var counter: nat
    var expiresAt: real

    ghost function View(): Store
      reads this
    {
      Store(zset, counter, expiresAt)
    }

    constructor ()
      ensures View() == EMPTY
    {
      zset, counter, expiresAt := map[], 0, 0.0;
    }

    /** The Lua script, with the keys' expiry made explicit. */
    method Eval(now: real, server: real, window: nat, limit: int) returns (allowed: bool, remaining: int)
      modifies this
      ensures (View(), allowed, remaining) == Script(Params(window as real, limit), old(View()), Request(now, server))
      ensures allowed ==>
        && counter == (if server >= old(expiresAt) then 0 else old(counter)) + 1
        && expiresAt == server + window as real + 1.0
        && Member(now, counter) in zset && zset[Member(now, counter)] == now
    {
      if server >= expiresAt {
        zset, counter, expiresAt := map[], 0, 0.0;
      }
      var cutoff := now - window as real;
      zset := Prune(zset, cutoff);
      var count := |zset|;
      if count >= limit {
        return false, 0;
      }
      counter := counter + 1;
      zset := zset[Member(now, counter) := now];
      expiresAt := server + window as real + 1.0;
      return true, limit - count - 1;
    }
  }

  // ---------------------------------------------------------------- runs, against the full log

  function StoreAfter(p: Params, rs: seq<Request>): Store {
    if rs == [] then EMPTY else Script(p, StoreAfter(p, rs[..|rs|-1]), rs[|rs|-1]).0
  }

  /** Whether request r is let through after the requests rs. */
  predicate Allowed(p: Params, rs: seq<Request>, r: Request) { Script(p, StoreAfter(p, rs), r).1 }

  /** The times of all admissions so far, oldest first. */
  function Log(p: Params, rs: seq<Request>): seq<real> {
    if rs == [] then []
    else
      var init, r := rs[..|rs|-1], rs[|rs|-1];
      Log(p, init) + if Allowed(p, init, r) then [r.now] else []
  }

  /** How many of the times are later than t. */
  function CountAfter(log: seq<real>, t: real): nat {
    if log == [] then 0
    else CountAfter(log[..|log|-1], t) + if log[|log|-1] > t then 1 else 0
  }

  /** The callers' clock does not go back, and Redis' clock gains at most a second on it: the script's
    extra second before expiry is what tolerates that. */
  predicate NotBefore(a: Request, b: Request) {
    0.0 <= a.now <= b.now && b.server - a.server <= b.now - a.now + 1.0
  }

  ghost predicate Clocks(rs: seq<Request>) {
    forall i, j :: 0 <= i <= j < |rs| ==> NotBefore(rs[i], rs[j])
  }

  ghost predicate Ascending(log: seq<real>) {
    forall i, j :: 0 <= i <= j < |log| ==> log[i] <= log[j]
  }

  /** The members of the set with scores later than t. */
  function Later(zset: map<Member, real>, t: real): set<Member> {
    set m | m in zset && zset[m] > t
  }

  /** The set and the log agree on everything later than `since`. */
  ghost predicate Agrees(zset: map<Member, real>, log: seq<real>, since: real) {
    forall t :: t >= since ==> |Later(zset, t)| == CountAfter(log, t)
  }

  /** After some requests, seen at time now: nothing is scored in the future or numbered past the counter,
    the log ascends up to now, and the set agrees with it on the window. */
  ghost predicate Inv(p: Params, s: Store, log: seq<real>, now: real) {
    && (forall m :: m in s.zset ==> 0.0 <= s.zset[m] <= now && m.seqNo <= s.counter)
    && Ascending(log) && (log != [] ==> log[|log|-1] <= now)
    && Agrees(s.zset, log, now - p.window)
  }

  /** If Redis' clock has reached the expiry, every logged admission has left the window. */
  ghost predicate ExpiryOk(p: Params, s: Store, log: seq<real>, r: Request) {
    s.expiresAt <= r.server ==> CountAfter(log, r.now - p.window) == 0
  }

  // ---------------------------------------------------------------- counting

  lemma {:induction false} CountNone(log: seq<real>, t: real)
    requires forall i :: 0 <= i < |log| ==> log[i] <= t
    ensures CountAfter(log, t) == 0
  {
    if log != [] {
      CountNone(log[..|log|-1], t);
    }
  }

  lemma CountSnoc(log: seq<real>, x: real, t: real)
    ensures CountAfter(log + [x], t) == CountAfter(log, t) + if x > t then 1 else 0
  {
    assert (log + [x])[..|log|] == log;
  }

  lemma {:induction false} CountMonotone(log: seq<real>, t: real, u: real)
    requires t <= u
    ensures CountAfter(log, u) <= CountAfter(log, t)
  {
    if log != [] {
      CountMonotone(log[..|log|-1], t, u);
    }
  }

  lemma ExpireKeeps(p: Params, s: Store, log: seq<real>, before: real, r: Request)
    requires Inv(p, s, log, before) && before <= r.now && ExpiryOk(p, s, log, r)
    ensures Inv(p, Expire(s, r.server), log, r.now)
  {
    var since := r.now - p.window;
    if r.server >= s.expiresAt {
      forall t | t >= since ensures |Later(map[], t)| == CountAfter(log, t) {
        CountMonotone(log, since, t);
        assert Later(map[], t) == {};
      }
    }
  }

  lemma PruneKeeps(p: Params, zset: map<Member, real>, log: seq<real>, counter: nat, expiresAt: real, now: real)
    requires Inv(p, Store(zset, counter, expiresAt), log, now)
    ensures var since := now - p.window;
      && Inv(p, Store(Prune(zset, since), counter, expiresAt), log, now)
      && |Prune(zset, since)| == CountAfter(log, since)
  {
    var since := now - p.window;
    var kept := Prune(zset, since);
    forall t | t >= since ensures Later(kept, t) == Later(zset, t) {
    }
    assert Later(kept, since) == kept.Keys;
  }

  lemma LaterInsert(zset: map<Member, real>, m: Member, now: real, t: real)
    requires m !in zset
    ensures |Later(zset[m := now], t)| == |Later(zset, t)| + if now > t then 1 else 0
  {
    if now > t {
      assert Later(zset[m := now], t) == Later(zset, t) + {m};
    } else {
      assert Later(zset[m := now], t) == Later(zset, t);
    }
  }

  lemma AdmitAgrees(zset: map<Member, real>, m: Member, log: seq<real>, now: real, since: real)
    requires m !in zset && Agrees(zset, log, since)
    ensures Agrees(zset[m := now], log + [now], since)
  {
    hide Later, CountAfter;
    forall t | t >= since ensures |Later(zset[m := now], t)| == CountAfter(log + [now], t) {
      CountSnoc(log, now, t);
      LaterInsert(zset, m, now, t);
    }
  }

  lemma AdmitKeeps(p: Params, zset: map<Member, real>, log: seq<real>, counter: nat,
                   expiresAt: real, expiresAt': real, now: real)
    requires Inv(p, Store(zset, counter, expiresAt), log, now) && now >= 0.0
    ensures Inv(p, Store(zset[Member(now, counter + 1) := now], counter + 1, expiresAt'), log + [now], now)
  {
    AdmitAgrees(zset, Member(now, counter + 1), log, now, now - p.window);
    hide Agrees;
  }

  lemma ScriptKeeps(p: Params, s: Store, log: seq<real>, before: real, r: Request)
    requires Inv(p, s, log, before) && before <= r.now && 0.0 <= r.now && ExpiryOk(p, s, log, r)
    ensures var (s', allowed, remaining) := Script(p, s, r);
      var log' := log + if allowed then [r.now] else [];
      && Inv(p, s', log', r.now)
      && (allowed <==> CountAfter(log, r.now - p.window) < p.limit)
      && (allowed ==> remaining == p.limit - CountAfter(log, r.now - p.window) - 1)
      && (!allowed ==> remaining == 0)
  {
    hide Inv, CountAfter, Prune, Expire, ExpiryOk;
    ExpireKeeps(p, s, log, before, r);
    var live := Expire(s, r.server);
    PruneKeeps(p, live.zset, log, live.counter, live.expiresAt, r.now);
    var kept := Prune(live.zset, r.now - p.window);
    if |kept| < p.limit {
      AdmitKeeps(p, kept, log, live.counter, live.expiresAt, r.server + p.window + 1.0, r.now);
    }
    assert log + [] == log;
  }

  // ---------------------------------------------------------------- over whole runs

  ghost predicate SetBy(p: Params, s: Store, log: seq<real>, rs: seq<Request>, i: int) {
    0 <= i < |rs| && log != [] && log[|log|-1] == rs[i].now && s.expiresAt == rs[i].server + p.window + 1.0
  }

  /** Either the key's expiry was set by the last logged admission, or that admission, and with it all
    of the log, had left the window by the latest request. */
  ghost predicate ExpiryTraced(p: Params, s: Store, log: seq<real>, rs: seq<Request>) {
    rs != [] && log != [] ==>
      || CountAfter(log, rs[|rs|-1].now - p.window) == 0
      || exists i :: SetBy(p, s, log, rs, i)
  }

  lemma TracedIsOk(p: Params, s: Store, log: seq<real>, rs: seq<Request>, r: Request)
    requires Clocks(rs + [r]) && Ascending(log) && ExpiryTraced(p, s, log, rs)
    requires log == [] || rs != []
    ensures ExpiryOk(p, s, log, r)
  {
    var since := r.now - p.window;
    if s.expiresAt <= r.server && log != [] {
      if i :| SetBy(p, s, log, rs, i) {
        assert (rs + [r])[i] == rs[i] && (rs + [r])[|rs|] == r;
        CountNone(log, since);
      } else {
        assert (rs + [r])[|rs|-1] == rs[|rs|-1] && (rs + [r])[|rs|] == r;
        CountMonotone(log, rs[|rs|-1].now - p.window, since);
      }
    }
  }

  /** What holds after any run: the clock of the latest request, or 0.0 before the first. */
  function LastNow(rs: seq<Request>): real { if rs == [] then 0.0 else rs[|rs|-1].now }

  ghost predicate RunInv(p: Params, rs: seq<Request>) {
    && Inv(p, StoreAfter(p, rs), Log(p, rs), LastNow(rs))
    && ExpiryTraced(p, StoreAfter(p, rs), Log(p, rs), rs)
    && (rs == [] ==> Log(p, rs) == [])
  }

  lemma TraceStep(p: Params, s: Store, log: seq<real>, rs: seq<Request>, r: Request)
    requires ExpiryOk(p, s, log, r) && ExpiryTraced(p, s, log, rs) && (log == [] || rs != [])
    requires rs != [] ==> LastNow(rs) <= r.now
    ensures var (s', allowed, _) := Script(p, s, r);
      ExpiryTraced(p, s', log + if allowed then [r.now] else [], rs + [r])
  {
    var (s', allowed, _) := Script(p, s, r);
    var rs' := rs + [r];
    assert rs'[|rs|] == r;
    if allowed {
      assert (log + [r.now])[|log|] == r.now;
      assert SetBy(p, s', log + [r.now], rs', |rs|);
    } else if log != [] && r.server < s.expiresAt {
      assert log + [] == log;
      if i :| SetBy(p, s, log, rs, i) {
        assert rs'[i] == rs[i];
        assert SetBy(p, s', log, rs', i);
      } else {
        CountMonotone(log, LastNow(rs) - p.window, r.now - p.window);
      }
    } else {
      assert log + [] == log;
    }
  }

  lemma ClocksPrefix(rs: seq<Request>, i: nat)
    requires Clocks(rs) && i <= |rs|
    ensures Clocks(rs[..i])
    ensures forall r :: r in rs ==> r.now >= 0.0
    ensures i < |rs| ==> LastNow(rs[..i]) <= rs[i].now
  {
    forall r | r in rs ensures r.now >= 0.0 {
      var k :| 0 <= k < |rs| && rs[k] == r;
      assert NotBefore(rs[k], rs[k]);
    }
    if 0 < i < |rs| {
      assert NotBefore(rs[i-1], rs[i]);
    } else if i < |rs| {
      assert NotBefore(rs[i], rs[i]);
    }
  }

  lemma RunStep(p: Params, rs: seq<Request>, r: Request)
    requires Clocks(rs + [r]) && RunInv(p, rs)
    ensures RunInv(p, rs + [r])
    ensures var (_, allowed, remaining) := Script(p, StoreAfter(p, rs), r);
      var used := CountAfter(Log(p, rs), r.now - p.window);
      && (allowed <==> used < p.limit) && remaining == (if used < p.limit then p.limit - used - 1 else 0)
  {
    var s, log := StoreAfter(p, rs), Log(p, rs);
    var rs' := rs + [r];
    assert rs'[..|rs|] == rs && rs'[|rs|] == r;
    ClocksPrefix(rs', |rs|);
    TracedIsOk(p, s, log, rs, r);
    hide Clocks, Script, CountAfter, Inv, ExpiryTraced;
    ScriptKeeps(p, s, log, LastNow(rs), r);
    TraceStep(p, s, log, rs, r);
  }

  lemma {:induction false} Runs(p: Params, rs: seq<Request>)
    requires Clocks(rs)
    ensures RunInv(p, rs)
  {
    if rs == [] {
      assert forall t :: Later(map[], t) == {};
    } else {
      var init, r := rs[..|rs|-1], rs[|rs|-1];
      ClocksPrefix(rs, |rs| - 1);
      assert rs == init + [r];
      hide Clocks, RunInv;
      Runs(p, init);
      RunStep(p, init, r);
    }
  }

  // ---------------------------------------------------------------- theorems

  /** The script decides as a limiter that counts the whole admission log: a request is let through exactly when
    fewer than `limit` admissions lie in the window ending with it, and is told how many more are left. */
  lemma DecidesByFullLog(p: Params, rs: seq<Request>, r: Request)
    requires Clocks(rs + [r])
    ensures var (_, allowed, remaining) := Script(p, StoreAfter(p, rs), r);
      var used := CountAfter(Log(p, rs), r.now - p.window);
      && (allowed <==> used < p.limit) && remaining == (if used < p.limit then p.limit - used - 1 else 0)
  {
    ClocksPrefix(rs + [r], |rs|);
    assert (rs + [r])[..|rs|] == rs;
    hide Clocks, RunInv, Script, CountAfter, Log, StoreAfter;
    Runs(p, rs);
    RunStep(p, rs, r);
  }

  /** After every request the pruned set is the log restricted to the window: as many members as
    admissions after each of its instants; this holds across key expiry too. */
  lemma SetIsWindowOfLog(p: Params, rs: seq<Request>, t: real)
    requires Clocks(rs) && rs != [] && t >= rs[|rs|-1].now - p.window
    ensures |Later(StoreAfter(p, rs).zset, t)| == CountAfter(Log(p, rs), t)
  {
    hide Later, CountAfter, Script, Log, StoreAfter, ExpiryTraced;
    Runs(p, rs);
  }

  lemma NothingOlder(p: Params, s: Store, log: seq<real>, before: real, r: Request, m: Member)
    requires Inv(p, s, log, before) && p.window > 0.0 && m in Script(p, s, r).0.zset
    ensures Script(p, s, r).0.zset[m] > r.now - p.window
  {
    hide Agrees, Ascending;
  }

  /** And no member older than that: what was pruned stays out. */
  lemma SetHoldsNothingOlder(p: Params, rs: seq<Request>, m: Member)
    requires Clocks(rs) && rs != [] && p.window > 0.0 && m in StoreAfter(p, rs).zset
    ensures StoreAfter(p, rs).zset[m] > rs[|rs|-1].now - p.window
  {
    var init, r := rs[..|rs|-1], rs[|rs|-1];
    ClocksPrefix(rs, |rs| - 1);
    Runs(p, init);
    NothingOlder(p, StoreAfter(p, init), Log(p, init), LastNow(init), r, m);
  }

  /** In an ascending log the times after t are its tail. */
  lemma {:induction false} CountIsTail(log: seq<real>, t: real)
    requires Ascending(log)
    ensures CountAfter(log, t) <= |log|
    ensures forall i :: 0 <= i < |log| ==> (log[i] > t <==> i >= |log| - CountAfter(log, t))
  {
    if log != [] {
      CountIsTail(log[..|log|-1], t);
      if log[|log|-1] <= t {
        CountNone(log, t);
      }
    }
  }

  /** Every admission saw fewer than `limit` earlier ones in its window. */
  lemma {:induction false} FewBeforeAdmission(p: Params, rs: seq<Request>, b: nat)
    requires Clocks(rs) && b < |Log(p, rs)|
    ensures CountAfter(Log(p, rs)[..b], Log(p, rs)[b] - p.window) < p.limit
  {
    hide Clocks, CountAfter, Script, StoreAfter;
    var init, r := rs[..|rs|-1], rs[|rs|-1];
    ClocksPrefix(rs, |rs| - 1);
    assert rs == init + [r];
    if b < |Log(p, init)| {
      FewBeforeAdmission(p, init, b);
      assert Log(p, rs)[..b] == Log(p, init)[..b];
    } else {
      DecidesByFullLog(p, init, r);
      assert Log(p, rs)[..b] == Log(p, init);
    }
  }

  lemma LogAscends(p: Params, rs: seq<Request>)
    requires Clocks(rs)
    ensures Ascending(Log(p, rs))
  {
    hide Clocks, Log;
    Runs(p, rs);
  }

  lemma CloseInLog(log: seq<real>, a: nat, b: nat, window: real)
    requires Ascending(log) && a <= b < |log| && log[b] - log[a] < window
    ensures b - a <= CountAfter(log[..b], log[b] - window)
  {
    CountIsTail(log[..b], log[b] - window);
    if a < b {
      assert log[..b][a] == log[a];
    }
  }

  /** Admissions less than a window apart, and all those between them, are at most `limit`. */
  lemma CloseAdmissionsAreFew(p: Params, rs: seq<Request>, a: nat, b: nat)
    requires Clocks(rs) && a <= b < |Log(p, rs)|
    requires Log(p, rs)[b] - Log(p, rs)[a] < p.window
    ensures b - a + 1 <= p.limit
  {
    hide Log, Clocks, CountAfter, Ascending;
    LogAscends(p, rs);
    FewBeforeAdmission(p, rs, b);
    CloseInLog(Log(p, rs), a, b, p.window);
  }

  /** Every half-open window (t - window, t] holds at most `limit` admissions. */
  lemma WindowHoldsAtMostLimit(p: Params, rs: seq<Request>, t: real)
    requires Clocks(rs)
    ensures CountAfter(Log(p, rs), t - p.window) - CountAfter(Log(p, rs), t) <= Max(0, p.limit)
  {
    hide Log, Clocks, CountAfter, Ascending;
    var log := Log(p, rs);
    LogAscends(p, rs);
    CountIsTail(log, t - p.window);
    CountIsTail(log, t);
    var a, b := |log| - CountAfter(log, t - p.window), |log| - CountAfter(log, t) - 1;
    if a <= b {
      CloseAdmissionsAreFew(p, rs, a, b);
    }
  }
}
