/** Spreading periodic tasks over a period: the slots of the mod strategy and the ranges random picks from. */
module Countdown {
  import opened Results

  const MINUTE: nat := 60
  const DURATION: nat := 900

  /** ceil(a / b), as exact arithmetic. */
  function CeilDiv(a: nat, b: nat): nat
    requires b > 0
  {
    (a + b - 1) / b
  }

  function Max(a: int, b: int): int {
    if a > b then a else b
  }

  function Min(a: int, b: int): int {
    if a < b then a else b
  }

  /** The width of a slot, at least a minute. */
  function Unit(count: nat, duration: nat): (u: nat)
    requires count > 0
    ensures u >= MINUTE
  {
    Max(CeilDiv(duration, count), MINUTE)
  }

  function Slots(count: nat, duration: nat): nat
    requires count > 0
  {
    CeilDiv(duration, Unit(count, duration))
  }

  /** The range random.randint picks from, ends included. */
  datatype Range = Range(low: int, high: int) {
    predicate Has(x: int) {
      low <= x <= high
    }
  }

  function SlotRange(count: nat, duration: nat, pos: nat): Range
    requires count > 0
  {
    var unit := Unit(count, duration);
    Range(pos * unit, Min((pos + 1) * unit - 1, duration))
  }

  /** calculate_countdown__mod's range for the task at an index. */
  function ModRange(count: nat, index: nat, duration: nat): Range
    requires count > 0 && duration > 0 && Slots(count, duration) > 0
  {
    SlotRange(count, duration, index % Slots(count, duration))
  }

  /** calculate_countdown__random's range. */
  function RandomRange(duration: nat): Range {
    Range(0, Max(duration - 1, 1))
  }

  /** The results calculate_countdown may return; mixing picks either strategy. */
  ghost predicate MayReturn(count: int, index: nat, duration: Option<nat>, x: int) {
    if count <= 1 then x == 0
    else
      var d := if duration.None? then DURATION else duration.value;
      RandomRange(d).Has(x) || (d > 0 && Slots(count, d) > 0 && ModRange(count, index, d).Has(x))
  }

  lemma Times(a: int, b: int, n: nat)
    requires a <= b
    ensures a * n <= b * n && (a + 1) * n == a * n + n
  {
  }

  lemma CeilDivIs(a: nat, b: nat)
    requires b > 0
    ensures var q := CeilDiv(a, b); a <= q * b < a + b
  {
    var q, r := (a + b - 1) / b, (a + b - 1) % b;
    assert a + b - 1 == q * b + r;
  }

  /** ceil(a / b) is the least such number. */
  lemma CeilDivLeast(a: nat, b: nat, q: nat)
    requires b > 0 && a <= q * b
    ensures CeilDiv(a, b) <= q
  {
    CeilDivIs(a, b);
    if CeilDiv(a, b) > q {
      Times(q + 1, CeilDiv(a, b), b);
    }
  }

  /** There is at least one slot and there are no more slots than tasks. */
  lemma SlotsBounded(count: nat, duration: nat)
    requires count > 0 && duration > 0
    ensures 1 <= Slots(count, duration) <= count
  {
    var unit := Unit(count, duration);
    CeilDivIs(duration, unit);
    CeilDivIs(duration, count);
    assert CeilDiv(duration, count) * count <= unit * count by {
      assert (unit - CeilDiv(duration, count)) * count >= 0;
    }
    assert unit * count == count * unit;
    CeilDivLeast(duration, unit, count);
  }

  /** The slots: n of one common width u of at least a minute, and of no more than it takes to give every
      task its own; n of them cover the period and n - 1 do not; the tasks take them in turn. This leaves no
      choice for u, n or the range. */
  lemma ModSlots(count: nat, index: nat, duration: nat) returns (u: nat, n: nat)
    requires count >= 1 && duration >= 1
    ensures u >= 60 && duration <= u * count && (u == 60 || (u - 1) * count < duration)
    ensures 1 <= n <= count && (n - 1) * u < duration <= n * u
    ensures n == Slots(count, duration)
    ensures var r := ModRange(count, index, duration);
            && r.low == (index % n) * u
            && r.high == (if r.low + u - 1 <= duration then r.low + u - 1 else duration)
            && (r.high - r.low + 1 <= 60 || (r.high - r.low) * count < duration)
  {
    u, n := Unit(count, duration), Slots(count, duration);
    SlotsBounded(count, duration);
    CeilDivIs(duration, count);
    CeilDivIs(duration, u);
    var q := CeilDiv(duration, count);
    Times(q, u, count);
    if u > 60 {
      assert (q - 1) * count == q * count - count;
    }
    assert (n - 1) * u == n * u - u;
    var pos := index % n;
    assert (pos + 1) * u == pos * u + u;
    var r := ModRange(count, index, duration);
    if r.high - r.low + 1 > 60 {
      Times(r.high - r.low, u - 1, count);
    }
  }

  /** What a task may be given: at once when it is alone; else, over a period that is a quarter of an hour
      unless said otherwise, any second before its end, or one of the task's own slot. */
  lemma ResultsExactly(count: int, index: nat, duration: Option<nat>, x: int)
    requires duration != Some(0)
    ensures var d := if duration.Some? then duration.value else 900;
            MayReturn(count, index, duration, x) <==>
              if count <= 1 then x == 0
              else (0 <= x && (x < d || x == d == 1)) || ModRange(count, index, d).Has(x)
  {
    if count > 1 {
      SlotsBounded(count, if duration.Some? then duration.value else 900);
    }
  }

  /** Every slot is a non-empty range within the period. */
  lemma SlotWithinPeriod(count: nat, duration: nat, pos: nat)
    requires count > 0 && duration > 0 && pos < Slots(count, duration)
    ensures var r := SlotRange(count, duration, pos); 0 <= r.low <= r.high <= duration
  {
    var unit, n := Unit(count, duration), Slots(count, duration);
    CeilDivIs(duration, unit);
    Times(pos, n - 1, unit);
    Times(n - 1, n - 1, unit);
  }

  /** Every range is non-empty and every result lies in the period. */
  lemma CountdownWithinPeriod(count: nat, index: nat, duration: nat)
    requires count >= 2 && duration >= 1
    ensures Slots(count, duration) > 0
    ensures var m, r := ModRange(count, index, duration), RandomRange(duration);
            m.low <= m.high && r.low <= r.high
            && forall x :: MayReturn(count, index, Some(duration), x) ==> 0 <= x <= duration
  {
    SlotsBounded(count, duration);
    SlotWithinPeriod(count, duration, index % Slots(count, duration));
  }

  lemma SlotExists(unit: nat, n: nat, duration: nat, x: nat) returns (k: nat)
    requires unit > 0 && x < duration <= n * unit
    ensures k == x / unit && k < n && k * unit <= x < k * unit + unit
  {
    k := x / unit;
    var r := x % unit;
    assert x == k * unit + r;
    if k >= n {
      Times(n, k, unit);
    }
  }

  /** The slots cut the period up: every second of it is in exactly one slot. */
  lemma SlotsPartition(count: nat, duration: nat, x: nat)
    requires count > 0 && x < duration
    ensures var k := x / Unit(count, duration);
            k < Slots(count, duration)
            && forall pos: nat :: pos < Slots(count, duration) ==>
                 (SlotRange(count, duration, pos).Has(x) <==> pos == k)
  {
    CeilDivIs(duration, Unit(count, duration));
    var k := SlotExists(Unit(count, duration), Slots(count, duration), duration, x);
    forall pos: nat | pos < Slots(count, duration)
      ensures SlotRange(count, duration, pos).Has(x) <==> pos == k
    {
      SlotHas(count, duration, x, k, pos);
    }
  }

  lemma SlotHas(count: nat, duration: nat, x: nat, k: nat, pos: nat)
    requires count > 0 && x < duration
    requires var unit := Unit(count, duration); k * unit <= x < k * unit + unit
    ensures SlotRange(count, duration, pos).Has(x) <==> pos == k
  {
    var unit := Unit(count, duration);
    Times(pos, pos, unit);
    if pos < k {
      Times(pos + 1, k, unit);
    } else if pos > k {
      Times(k + 1, pos, unit);
      Times(k, k, unit);
    }
  }

  /** How many of the first `count` tasks fall in a slot. */
  ghost function Load(count: nat, n: nat, pos: nat): nat
    requires n > 0
  {
    if count == 0 then 0 else Load(count - 1, n, pos) + (if (count - 1) % n == pos then 1 else 0)
  }

  /** Tasks are dealt out in turn. */
  lemma {:induction false} LoadIs(count: nat, n: nat, pos: nat)
    requires pos < n
    ensures Load(count, n, pos) == count / n + (if pos < count % n then 1 else 0)
  {
    if count == 0 {
      assert 0 / n == 0 && 0 % n == 0;
    } else {
      LoadIs(count - 1, n, pos);
      DivNext(count - 1, n);
    }
  }

  lemma DivNext(a: nat, n: nat)
    requires n > 0
    ensures if a % n == n - 1 then (a + 1) / n == a / n + 1 && (a + 1) % n == 0
            else (a + 1) / n == a / n && (a + 1) % n == a % n + 1
  {
    var q, r := a / n, a % n;
    assert a == q * n + r;
    if r == n - 1 {
      assert a + 1 == (q + 1) * n;
      DivIs(a + 1, n, q + 1, 0);
    } else {
      DivIs(a + 1, n, q, r + 1);
    }
  }

  lemma DivIs(a: nat, n: nat, q: nat, r: nat)
    requires n > 0 && r < n && a == q * n + r
    ensures a / n == q && a % n == r
  {
    var q' := a / n;
    if q' > q {
      Times(q + 1, q', n);
    } else if q' < q {
      Times(q' + 1, q, n);
    }
  }

  lemma DivPositive(count: nat, n: nat)
    requires 0 < n <= count
    ensures count / n >= 1
  {
    assert count < (count / n) * n + n;
  }

  /** Over all tasks every slot gets one, and no slot gets two more than another. */
  lemma LoadsBalanced(count: nat, duration: nat, a: nat, b: nat)
    requires count > 0 && duration > 0
    requires a < Slots(count, duration) && b < Slots(count, duration)
    ensures var n := Slots(count, duration);
            Load(count, n, a) >= 1 && Load(count, n, a) <= Load(count, n, b) + 1
  {
    var n := Slots(count, duration);
    SlotsBounded(count, duration);
    LoadIs(count, n, a);
    LoadIs(count, n, b);
    DivPositive(count, n);
  }
}
