/** The Snowflake id generator (app/infra/id_generator.py): timestamp, datacenter, worker and sequence
  packed into one integer by shifts and bitwise or. */
module SnowflakeId {
  import opened Common

  const EPOCH := 1288834974657
  const MAX_WORKER_ID := 31
  const MAX_DATACENTER_ID := 31
  const MAX_SEQUENCE := 4095

  // ---------------------------------------------------------------- shifts and bitwise or

  function Pow2(k: nat): nat { if k == 0 then 1 else 2 * Pow2(k - 1) }

  /** x << k on unbounded integers. */
  function Shl(x: int, k: nat): int { x * Pow2(k) }

  /** x | y for unbounded two's complement x and natural y, bit by bit. */
  function BitOr(x: int, y: nat): int
    decreases y
  {
    if y == 0 then x else 2 * BitOr(x / 2, y / 2) + Max(x % 2, y % 2)
  }

  lemma HalveShift(x: int, k: nat)
    requires k > 0
    ensures Shl(x, k) == 2 * Shl(x, k - 1)
  {
  }

  /** Or-ing a number below 2^k into one shifted left by k adds it. */
  lemma {:induction false} OrIsSum(x: int, y: nat, k: nat)
    requires y < Pow2(k)
    ensures BitOr(Shl(x, k), y) == Shl(x, k) + y
    decreases k
  {
    if y > 0 {
      var half := Shl(x, k - 1);
      HalveShift(x, k);
      OrIsSum(x, y / 2, k - 1);
    }
  }

  lemma Powers()
    ensures Pow2(5) == 32 && Pow2(10) == 1024 && Pow2(12) == 4096 && Pow2(17) == 131072 && Pow2(22) == 4194304
  {
    assert Pow2(5) == 32;
    assert Pow2(10) == 1024;
    assert Pow2(12) == 4096;
    assert Pow2(17) == 131072;
  }

  // ---------------------------------------------------------------- packing

  predicate ValidNode(datacenter: int, worker: int) {
    0 <= datacenter <= MAX_DATACENTER_ID && 0 <= worker <= MAX_WORKER_ID
  }

  /** The timestamp offset above the datacenter, the worker and the sequence, each in its own bits. */
  function Pack(offset: int, datacenter: nat, worker: nat, sequence: nat): int {
    BitOr(BitOr(BitOr(Shl(offset, 22), Shl(datacenter, 17)), Shl(worker, 12)), sequence)
  }

  lemma ShiftsAre(x: int)
    ensures Shl(x, 22) == x * 4194304 && Shl(x, 17) == x * 131072 && Shl(x, 12) == x * 4096
  {
    hide Pow2;
    Powers();
  }

  /** The three ors of the packing, each into a number whose low bits are zero. */
  lemma OrIntoShifted(x: int, y: nat)
    ensures y < 4194304 ==> BitOr(x * 4194304, y) == x * 4194304 + y
    ensures y < 131072 ==> BitOr(x * 131072, y) == x * 131072 + y
    ensures y < 4096 ==> BitOr(x * 4096, y) == x * 4096 + y
  {
    hide Pow2, BitOr;
    Powers();
    ShiftsAre(x);
    if y < 4194304 { OrIsSum(x, y, 22); }
    if y < 131072 { OrIsSum(x, y, 17); }
    if y < 4096 { OrIsSum(x, y, 12); }
  }

  /** The fields do not overlap, so packing is a sum of weighted fields. */
  lemma PackIsSum(offset: int, datacenter: nat, worker: nat, sequence: nat)
    requires ValidNode(datacenter, worker) && sequence <= MAX_SEQUENCE
    ensures Pack(offset, datacenter, worker, sequence)
         == offset * 4194304 + datacenter * 131072 + worker * 4096 + sequence
  {
    hide BitOr, Shl, Pow2;
    ShiftsAre(offset);
    ShiftsAre(datacenter);
    ShiftsAre(worker);
    var a := offset * 32 + datacenter;
    OrIntoShifted(offset, datacenter * 131072);
    OrIntoShifted(a, worker * 4096);
    OrIntoShifted(a * 32 + worker, sequence);
    assert offset * 4194304 + datacenter * 131072 == a * 131072;
    assert a * 131072 + worker * 4096 == (a * 32 + worker) * 4096;
  }

  /** Every field is recovered from the id by division and remainder. */
  lemma FieldsRecovered(offset: int, datacenter: nat, worker: nat, sequence: nat)
    requires ValidNode(datacenter, worker) && sequence <= MAX_SEQUENCE
    ensures var id := Pack(offset, datacenter, worker, sequence);
      && id / 4194304 == offset
      && id / 131072 % 32 == datacenter
      && id / 4096 % 32 == worker
      && id % 4096 == sequence
  {
    hide Pack;
    PackIsSum(offset, datacenter, worker, sequence);
    var id := Pack(offset, datacenter, worker, sequence);
    assert id / 4096 == offset * 1024 + datacenter * 32 + worker;
    assert id / 131072 == offset * 32 + datacenter;
  }

  /** Different nodes never produce the same id, whatever their clocks and sequences. */
  lemma NodesNeverCollide(o1: int, d1: nat, w1: nat, s1: nat, o2: int, d2: nat, w2: nat, s2: nat)
    requires ValidNode(d1, w1) && ValidNode(d2, w2) && s1 <= MAX_SEQUENCE && s2 <= MAX_SEQUENCE
    requires (d1, w1) != (d2, w2)
    ensures Pack(o1, d1, w1, s1) != Pack(o2, d2, w2, s2)
  {
    hide Pack;
    FieldsRecovered(o1, d1, w1, s1);
    FieldsRecovered(o2, d2, w2, s2);
  }

  /** An id is a non-negative 63-bit number exactly while its timestamp offset fits 41 bits. */
  lemma FitsSixtyThreeBits(offset: int, datacenter: nat, worker: nat, sequence: nat)
    requires ValidNode(datacenter, worker) && sequence <= MAX_SEQUENCE
    ensures 0 <= Pack(offset, datacenter, worker, sequence) < 0x8000_0000_0000_0000 <==> 0 <= offset < 0x200_0000_0000
  {
    hide Pack;
    PackIsSum(offset, datacenter, worker, sequence);
  }

  // ---------------------------------------------------------------- the generator

  datatype Clock = Clock(sequence: nat, last: int)

  /** A call's result: an id, a rollback error, or still waiting when the given readings ran out. */
  datatype Outcome = Id(id: int) | ClockMovedBackwards | Waiting

  /** The first reading past `last`, as the wait loop finds it. */
  function NextMs(readings: seq<int>, last: int): Option<int> {
    if readings == [] then None
    else if readings[0] > last then Some(readings[0])
    else NextMs(readings[1..], last)
  }

  function PackAt(ts: int, datacenter: nat, worker: nat, sequence: nat): int {
    Pack(ts - EPOCH, datacenter, worker, sequence)
  }

  /** One next_id call on the clock readings it takes. */
  function NextId(datacenter: nat, worker: nat, c: Clock, readings: seq<int>): (Clock, Outcome) {
    if readings == [] then (c, Waiting)
    else
      var ts := readings[0];
      if ts < c.last then (c, ClockMovedBackwards)
      else if ts == c.last then
        var sequence := (c.sequence + 1) % (MAX_SEQUENCE + 1);
        if sequence == 0 then
          match NextMs(readings[1..], c.last)
          case None => (c, Waiting)
          case Some(t) => (Clock(0, t), Id(PackAt(t, datacenter, worker, 0)))
        else (Clock(sequence, ts), Id(PackAt(ts, datacenter, worker, sequence)))
      else (Clock(0, ts), Id(PackAt(ts, datacenter, worker, 0)))
  }

  class SnowflakeIDGenerator {
    const workerId: int
    const datacenterId: int
    var sequence: nat
    var lastTimestamp: int

    ghost predicate Valid()
      reads this
    {
      ValidNode(datacenterId, workerId) && sequence <= MAX_SEQUENCE
    }

    ghost function View(): Clock
      reads this
    {
      Clock(sequence, lastTimestamp)
    }

    /** Ids outside their fields are refused. */
    static method Create(workerId: int, datacenterId: int) returns (g: Option<SnowflakeIDGenerator>)
      ensures g.Some? <==> 0 <= workerId <= 31 && 0 <= datacenterId <= 31
      ensures g.Some? ==> fresh(g.value) && g.value.Valid() && g.value.View() == Clock(0, -1)
      ensures g.Some? ==> g.value.workerId == workerId && g.value.datacenterId == datacenterId
    {
      if !ValidNode(datacenterId, workerId) {
        return None;
      }
      var generator := new SnowflakeIDGenerator(workerId, datacenterId);
      return Some(generator);
    }

    constructor (workerId: int, datacenterId: int)
      requires ValidNode(datacenterId, workerId)
      ensures Valid() && View() == Clock(0, -1)
      ensures this.workerId == workerId && this.datacenterId == datacenterId
    {
      this.workerId, this.datacenterId := workerId, datacenterId;
      sequence, lastTimestamp := 0, -1;
    }

    /** Reads the clock until it passes `last`. */
    static method WaitNextMs(readings: seq<int>, last: int) returns (ts: Option<int>)
      ensures ts == NextMs(readings, last)
    {
      var i := 0;
      while i < |readings| && readings[i] <= last
        invariant 0 <= i <= |readings|
        invariant NextMs(readings[i..], last) == NextMs(readings, last)
      {
        i := i + 1;
      }
      ts := if i < |readings| then Some(readings[i]) else None;
    }

    /** A call that is still waiting has not returned; it leaves the last id's clock in place. */
    method NextIdOn(readings: seq<int>) returns (r: Outcome)
      requires Valid()
      modifies this
      ensures Valid() && (View(), r) == NextId(datacenterId, workerId, old(View()), readings)
      ensures r.ClockMovedBackwards? <==> readings != [] && readings[0] < old(lastTimestamp)
    {
      hide PackAt, NextMs;
      if readings == [] {
        return Waiting;
      }
      var ts := readings[0];
      if ts < lastTimestamp {
        return ClockMovedBackwards;
      }
      var next := 0;
      if ts == lastTimestamp {
        next := (sequence + 1) % (MAX_SEQUENCE + 1);
        if next == 0 {
          var later := WaitNextMs(readings[1..], lastTimestamp);
          if later.None? {
            return Waiting;
          }
          ts := later.value;
        }
      }
      sequence, lastTimestamp := next, ts;
      var packed := PackAt(ts, datacenterId, workerId, sequence);
      return Id(packed);
    }
  }

  // ---------------------------------------------------------------- runs of one generator

  /** The clock after a run of calls, and the ids handed out, oldest first. */
  function ClockAfter(datacenter: nat, worker: nat, calls: seq<seq<int>>): Clock {
    if calls == [] then Clock(0, -1)
    else NextId(datacenter, worker, ClockAfter(datacenter, worker, calls[..|calls|-1]), calls[|calls|-1]).0
  }

  function Ids(datacenter: nat, worker: nat, calls: seq<seq<int>>): seq<int> {
    if calls == [] then []
    else
      var init := calls[..|calls|-1];
      var r := NextId(datacenter, worker, ClockAfter(datacenter, worker, init), calls[|calls|-1]).1;
      Ids(datacenter, worker, init) + if r.Id? then [r.id] else []
  }

  lemma {:induction false} NextMsIsLater(readings: seq<int>, last: int)
    ensures NextMs(readings, last).Some? ==> NextMs(readings, last).value > last
  {
    if readings != [] && readings[0] <= last {
      NextMsIsLater(readings[1..], last);
    }
  }

  /** ts is the first of the readings later than `last`. */
  ghost predicate FirstLater(readings: seq<int>, last: int, ts: int) {
    exists i :: 0 <= i < |readings| && readings[i] == ts > last && forall j :: 0 <= j < i ==> readings[j] <= last
  }

  lemma {:induction false} NextMsIsFirst(readings: seq<int>, last: int)
    ensures NextMs(readings, last).None? <==> forall i :: 0 <= i < |readings| ==> readings[i] <= last
    ensures NextMs(readings, last).Some? ==> FirstLater(readings, last, NextMs(readings, last).value)
  {
    if readings != [] {
      NextMsIsFirst(readings[1..], last);
      if readings[0] > last {
        assert FirstLater(readings, last, readings[0]);
      } else if NextMs(readings[1..], last).Some? {
        var ts := NextMs(readings[1..], last).value;
        var i :| 0 <= i < |readings| - 1 && readings[1..][i] == ts > last
          && forall j :: 0 <= j < i ==> readings[1..][j] <= last;
        assert readings[i + 1] == ts;
        forall j | 0 <= j < i + 1 ensures readings[j] <= last {
          assert j > 0 ==> readings[1..][j - 1] == readings[j];
        }
      } else {
        forall i | 0 <= i < |readings| ensures readings[i] <= last {
          assert i > 0 ==> readings[1..][i - 1] == readings[i];
        }
      }
    }
  }

  /** An id lies above everything packed before it; a clock that moved back raises; and a call without an id
    leaves the generator as it was. */
  lemma NextIdAdvances(datacenter: nat, worker: nat, c: Clock, readings: seq<int>)
    requires ValidNode(datacenter, worker) && c.sequence <= MAX_SEQUENCE
    ensures var (c', r) := NextId(datacenter, worker, c, readings);
      && c'.sequence <= MAX_SEQUENCE
      && (r.Id? ==>
           && r.id == PackAt(c'.last, datacenter, worker, c'.sequence)
           && r.id > PackAt(c.last, datacenter, worker, c.sequence))
      && (!r.Id? ==> c' == c)
      && (r.ClockMovedBackwards? <==> readings != [] && readings[0] < c.last)
  {
    hide Pack;
    var (c', r) := NextId(datacenter, worker, c, readings);
    if readings != [] {
      NextMsIsLater(readings[1..], c.last);
    }
    if r.Id? {
      PackIsSum(c.last - EPOCH, datacenter, worker, c.sequence);
      PackIsSum(c'.last - EPOCH, datacenter, worker, c'.sequence);
    }
  }

  /** What a call makes of its clock readings. On a reading later than the last id's, sequence 0 at that reading;
    on the same reading, the next sequence, or, after the 4096th id of that millisecond, sequence 0 at the first
    later reading; and no id if the clock is behind, or not yet later when it must be. */
  lemma {:induction false} NextIdReads(datacenter: nat, worker: nat, c: Clock, readings: seq<int>)
    requires ValidNode(datacenter, worker) && 0 <= c.sequence <= 4095 && readings != []
    ensures var (c', r) := NextId(datacenter, worker, c, readings);
      && (r.Id? ==> r.id == (c'.last - 1288834974657) * 4194304 + datacenter * 131072 + worker * 4096 + c'.sequence)
      && (readings[0] < c.last ==> r == ClockMovedBackwards && c' == c)
      && (readings[0] > c.last ==> r.Id? && c' == Clock(0, readings[0]))
      && (readings[0] == c.last && c.sequence < 4095 ==> r.Id? && c' == Clock(c.sequence + 1, readings[0]))
      && (readings[0] == c.last && c.sequence == 4095 ==>
           if forall i :: 0 <= i < |readings| ==> readings[i] <= c.last then r == Waiting && c' == c
           else r.Id? && c'.sequence == 0 && FirstLater(readings, c.last, c'.last))
  {
    hide Pack;
    var (c', r) := NextId(datacenter, worker, c, readings);
    if r.Id? {
      NextIdAdvances(datacenter, worker, c, readings);
      PackIsSum(c'.last - EPOCH, datacenter, worker, c'.sequence);
    }
    if readings[0] == c.last {
      NextMsIsFirst(readings[1..], c.last);
      assert forall i :: 0 <= i < |readings| - 1 ==> readings[1..][i] == readings[i + 1];
      if FirstLater(readings[1..], c.last, c'.last) {
        var i :| 0 <= i < |readings| - 1 && readings[1..][i] == c'.last > c.last
          && forall j :: 0 <= j < i ==> readings[1..][j] <= c.last;
        assert readings[i + 1] == c'.last;
        forall j | 0 <= j < i + 1 ensures readings[j] <= c.last {
          assert j > 0 ==> readings[1..][j - 1] == readings[j];
        }
      }
    }
  }

  ghost predicate Increasing(ids: seq<int>) { forall i, j :: 0 <= i < j < |ids| ==> ids[i] < ids[j] }

  ghost predicate AtMost(ids: seq<int>, bound: int) { forall i :: 0 <= i < |ids| ==> ids[i] <= bound }

  lemma IncreasingSnoc(ids: seq<int>, bound: int, id: int)
    requires Increasing(ids) && AtMost(ids, bound) && bound < id
    ensures Increasing(ids + [id]) && AtMost(ids + [id], id)
  {
  }

  lemma {:induction false} IdsStayBelowClock(datacenter: nat, worker: nat, calls: seq<seq<int>>)
    requires ValidNode(datacenter, worker)
    ensures var ids, c := Ids(datacenter, worker, calls), ClockAfter(datacenter, worker, calls);
      c.sequence <= MAX_SEQUENCE && Increasing(ids) && AtMost(ids, PackAt(c.last, datacenter, worker, c.sequence))
  {
    if calls != [] {
      hide NextId, PackAt, Increasing, AtMost;
      var init := calls[..|calls|-1];
      var c := ClockAfter(datacenter, worker, init);
      var r := NextId(datacenter, worker, c, calls[|calls|-1]).1;
      IdsStayBelowClock(datacenter, worker, init);
      NextIdAdvances(datacenter, worker, c, calls[|calls|-1]);
      if r.Id? {
        IncreasingSnoc(Ids(datacenter, worker, init), PackAt(c.last, datacenter, worker, c.sequence), r.id);
      } else {
        assert Ids(datacenter, worker, calls) == Ids(datacenter, worker, init);
      }
    }
  }

  /** Ids strictly increase over every run of clock readings, rollbacks and waits included. */
  lemma IdsIncrease(datacenter: nat, worker: nat, calls: seq<seq<int>>, i: nat, j: nat)
    requires ValidNode(datacenter, worker) && i < j < |Ids(datacenter, worker, calls)|
    ensures Ids(datacenter, worker, calls)[i] < Ids(datacenter, worker, calls)[j]
  {
    hide NextId, Ids;
    IdsStayBelowClock(datacenter, worker, calls);
  }

  lemma {:induction false} IdsArePacked(datacenter: nat, worker: nat, calls: seq<seq<int>>, i: nat)
    returns (offset: int, sequence: nat)
    requires ValidNode(datacenter, worker) && i < |Ids(datacenter, worker, calls)|
    ensures sequence <= MAX_SEQUENCE
    ensures Ids(datacenter, worker, calls)[i] == Pack(offset, datacenter, worker, sequence)
  {
    hide Pack;
    var init := calls[..|calls|-1];
    if i < |Ids(datacenter, worker, init)| {
      offset, sequence := IdsArePacked(datacenter, worker, init, i);
    } else {
      var c := ClockAfter(datacenter, worker, init);
      var c' := NextId(datacenter, worker, c, calls[|calls|-1]).0;
      IdsStayBelowClock(datacenter, worker, init);
      NextIdAdvances(datacenter, worker, c, calls[|calls|-1]);
      offset, sequence := c'.last - EPOCH, c'.sequence;
    }
  }

  /** Two generators on different nodes never hand out the same id in any of their runs. */
  lemma RunsNeverCollide(d1: nat, w1: nat, calls1: seq<seq<int>>, i: nat,
                         d2: nat, w2: nat, calls2: seq<seq<int>>, j: nat)
    requires ValidNode(d1, w1) && ValidNode(d2, w2) && (d1, w1) != (d2, w2)
    requires i < |Ids(d1, w1, calls1)| && j < |Ids(d2, w2, calls2)|
    ensures Ids(d1, w1, calls1)[i] != Ids(d2, w2, calls2)[j]
  {
    hide Pack, Ids;
    var o1, s1 := IdsArePacked(d1, w1, calls1, i);
    var o2, s2 := IdsArePacked(d2, w2, calls2, j);
    NodesNeverCollide(o1, d1, w1, s1, o2, d2, w2, s2);
  }
}
