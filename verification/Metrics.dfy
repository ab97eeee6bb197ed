/**
 The 60-slot request counter of src/metrics.cpp, ticked sequentially: slot
 t % 60 counts second t, and moving to a new second clears the slots of the
 seconds in between.
 */
module Metrics {

  const N := 60
  const WINDOW := 31

  /** The slots and the current second. */
  datatype Ring = Ring(slots: seq<int>, cur: int)

  predicate Shaped(r: Ring) { |r.slots| == N }

  function Started(ms: nat): Ring { Ring(seq(N, _ => 0), ms / 1000) }

  /** The clearing loop over the seconds after `c` up to `s`. */
  function Cleared(slots: seq<int>, c: int, s: int): (r: seq<int>)
    requires |slots| == N
    ensures |r| == N
    decreases s - c
  {
    if s <= c then slots else Cleared(slots, c, s - 1)[s % N := 0]
  }

  /** One tick in second `s`. */
  function Ticked(r: Ring, s: int): (r': Ring)
    requires Shaped(r)
    ensures Shaped(r')
  {
    var slots := if s != r.cur then Cleared(r.slots, r.cur, s) else r.slots;
    Ring(slots[s % N := slots[s % N] + 1], s)
  }

  /** Second `t` still has its slot. */
  predicate Held(cur: int, t: int) { t <= cur && cur - t < N }

  /** Entry `i` of the window ending at second `s`. */
  function Entry(r: Ring, s: int, i: int): int
    requires Shaped(r)
  {
    var t := s - 30 + i;
    if Held(r.cur, t) then r.slots[t % N] else 0
  }

  /** C++ takes `t % 60` negative for a negative `t`, so the window may only look up seconds from the epoch on. */
  predicate InBounds(cur: int, s: int) {
    forall t | s - 30 <= t <= s && Held(cur, t) :: 0 <= t
  }

  /** On a clock that did not go back, that is so exactly from the thirtieth second on. */
  lemma InBoundsIff(cur: int, s: int)
    requires 0 <= cur <= s
    ensures InBounds(cur, s) <==> s >= 30
  {
    if s < 30 {
      assert Held(cur, s - 30);
    }
  }

  class Counters {
    var buckets: array<int>
    var cur: int

    ghost predicate Valid()
      reads this
    {
      buckets.Length == N
    }

    function Value(): Ring
      reads this, buckets
    {
      Ring(buckets[..], cur)
    }

    constructor (ms: nat)
      ensures Valid() && fresh(buckets) && Value() == Started(ms)
    {
      buckets := new int[N](_ => 0);
      cur := ms / 1000;
      new;
      assert buckets[..] == seq(N, _ => 0);
    }

    /** `tick`, when no other thread moves the current second meanwhile. */
    method Tick(ms: nat)
      requires Valid()
      modifies this`cur, buckets
      ensures Valid() && Value() == Ticked(old(Value()), ms / 1000)
    {
      var s, c := ms / 1000, cur;
      if s != c {
        cur := s;
        var t := c + 1;
        while t <= s
          invariant t >= c + 1 && (t <= s + 1 || t == c + 1)
          invariant buckets[..] == Cleared(old(buckets[..]), c, t - 1) && cur == s
          decreases s - t
        {
          buckets[t % N] := 0;
          t := t + 1;
        }
      }
      buckets[s % N] := buckets[s % N] + 1;
    }

    /** The window loop of `snapshot`, which must not meet a second before the epoch. */
    method Window(ms: nat) returns (window: seq<int>)
      requires Valid() && InBounds(cur, ms / 1000)
      ensures |window| == WINDOW && forall i | 0 <= i < WINDOW :: window[i] == Entry(Value(), ms / 1000, i)
    {
      var s := ms / 1000;
      window := [];
      for i := 0 to WINDOW
        invariant |window| == i && forall j | 0 <= j < i :: window[j] == Entry(Value(), s, j)
      {
        var t := s - 30 + i;
        var w := 0;
        if Held(cur, t) { w := buckets[t % N]; }
        window := window + [w];
      }
    }
  }

  // ---------- the ring against the full history ----------

  /** How many of the ticks fell in second `t`. */
  function Count(ticks: seq<int>, t: int): nat {
    if ticks == [] then 0 else Count(ticks[..|ticks| - 1], t) + if ticks[|ticks| - 1] == t then 1 else 0
  }

  /** The ring after ticks in the given seconds. */
  function Run(ms: nat, ticks: seq<int>): (r: Ring)
    ensures Shaped(r)
  {
    if ticks == [] then Started(ms) else Ticked(Run(ms, ticks[..|ticks| - 1]), ticks[|ticks| - 1])
  }

  /** A clock that never goes back, with gaps of any size. */
  predicate Monotone(start: int, ticks: seq<int>) {
    ticks == [] || (Monotone(start, ticks[..|ticks| - 1]) && LastSecond(start, ticks[..|ticks| - 1]) <= ticks[|ticks| - 1])
  }

  function LastSecond(start: int, ticks: seq<int>): int {
    if ticks == [] then start else ticks[|ticks| - 1]
  }

  lemma SlotsDiffer(a: int, b: int)
    requires 0 < a - b < N
    ensures a % N != b % N
  {}

  /** Clearing resets exactly the new seconds of the last minute and keeps the old ones. */
  lemma {:induction false} ClearedSlots(slots: seq<int>, c: int, s: int, t: int)
    requires |slots| == N && c <= s && s - N < t <= s
    ensures Cleared(slots, c, s)[t % N] == if t > c then 0 else slots[t % N]
    decreases s - c
  {
    if c < s && t < s {
      SlotsDiffer(s, t);
      ClearedSlots(slots, c, s - 1, t);
    }
  }

  lemma {:induction false} NoLaterTicks(start: int, ticks: seq<int>, t: int)
    requires Monotone(start, ticks) && t > LastSecond(start, ticks)
    ensures Count(ticks, t) == 0
  {
    if ticks != [] { NoLaterTicks(start, ticks[..|ticks| - 1], t); }
  }

  /**
   The ring refines the history: over every run on a non-decreasing clock, each second of
   the minute that ends now has its exact number of ticks in its slot.
   */
  lemma {:induction false} RingRefinesHistory(ms: nat, ticks: seq<int>, t: int)
    requires Monotone(ms / 1000, ticks)
    requires var cur := LastSecond(ms / 1000, ticks); cur - N < t <= cur
    ensures Run(ms, ticks).cur == LastSecond(ms / 1000, ticks)
    ensures Run(ms, ticks).slots[t % N] == Count(ticks, t)
  {
    if ticks != [] {
      var head, s := ticks[..|ticks| - 1], ticks[|ticks| - 1];
      var c := LastSecond(ms / 1000, head);
      var r := Run(ms, head);
      RingRefinesHistory(ms, head, c);
      ClearedSlots(r.slots, c, s, t);
      if t <= c {
        RingRefinesHistory(ms, head, t);
      } else {
        NoLaterTicks(ms / 1000, head, t);
      }
      if t != s { SlotsDiffer(s, t); }
    }
  }

  /** Every one of the 31 entries of a snapshot taken at any later second is the true count. */
  lemma WindowExact(ms: nat, ticks: seq<int>, s: int, i: int)
    requires Monotone(ms / 1000, ticks) && LastSecond(ms / 1000, ticks) <= s && 0 <= i < WINDOW
    ensures Entry(Run(ms, ticks), s, i) == Count(ticks, s - 30 + i)
  {
    var cur, t := LastSecond(ms / 1000, ticks), s - 30 + i;
    RingRefinesHistory(ms, ticks, cur);
    if t <= cur {
      RingRefinesHistory(ms, ticks, t);
    } else {
      NoLaterTicks(ms / 1000, ticks, t);
    }
  }
}
