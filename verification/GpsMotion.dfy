/**
 The motion trigger of the GPS (app/src/gps_ublox/gps.c): a sliding window of event times, kept as
 32-bit milliseconds in an array, and a fix requested when enough events fall into it.
 */
module GpsMotion {

  const MAX_EVENTS: nat := 255
  const MAX_INTERVAL: nat := 86400
  const WRAP: nat := 0x1_0000_0000

  /** The event is more than `interval` whole seconds old. */
  predicate Stale(e: nat, now: nat, interval: nat)
    requires e <= now
  {
    (now - e) / 1000 > interval
  }

  function Low(t: nat): nat {
    t % WRAP
  }

  /** Subtraction of uint32_t. */
  function Minus(a: nat, b: nat): nat
    requires a < WRAP && b < WRAP
  {
    if a >= b then a - b else a + WRAP - b
  }

  /** What the code makes of it: the difference of the 32-bit times. */
  predicate LooksStale(e: nat, now: nat, interval: nat) {
    Minus(Low(now), Low(e)) / 1000 > interval
  }

  predicate Ordered(es: seq<nat>, now: nat) {
    (forall i, j :: 0 <= i < j < |es| ==> es[i] <= es[j]) && (forall i :: 0 <= i < |es| ==> es[i] <= now)
  }

  /** The newest events none of which is stale. */
  function Fresh(es: seq<nat>, now: nat, interval: nat): (r: seq<nat>)
    requires forall i :: 0 <= i < |es| ==> es[i] <= now
    ensures |r| <= |es| && r == es[|es| - |r|..]
  {
    if es == [] || Stale(es[|es| - 1], now, interval) then []
    else
      assert es[..|es| - 1] + [es[|es| - 1]] == es;
      Fresh(es[..|es| - 1], now, interval) + [es[|es| - 1]]
  }

  /** The newest events none of which looks stale. */
  function Looking(es: seq<nat>, now: nat, interval: nat): (r: seq<nat>)
    ensures |r| <= |es| && r == es[|es| - |r|..]
  {
    if es == [] || LooksStale(es[|es| - 1], now, interval) then []
    else
      assert es[..|es| - 1] + [es[|es| - 1]] == es;
      Looking(es[..|es| - 1], now, interval) + [es[|es| - 1]]
  }

  // ---- 32-bit ages ----

  /** Modulo 2^32 the age is the true one. */
  lemma AgeModulo(e: nat, now: nat)
    requires e <= now
    ensures Minus(Low(now), Low(e)) == (now - e) % WRAP
  {
    var a, b := now % WRAP, e % WRAP;
    assert now - e == WRAP * (now / WRAP - e / WRAP) + (a - b);
    if a >= b {
      RemainderOf(now / WRAP - e / WRAP, a - b);
    } else {
      RemainderOf(now / WRAP - e / WRAP - 1, a - b + WRAP);
    }
  }

  lemma RemainderOf(q: int, r: nat)
    requires r < WRAP
    ensures (WRAP * q + r) % WRAP == r
  {
  }

  /** What is fresh always looks fresh; what is stale looks stale until its age wraps around. */
  lemma LooksRight(e: nat, now: nat, interval: nat)
    requires e <= now && interval <= MAX_INTERVAL
    ensures !Stale(e, now, interval) ==> !LooksStale(e, now, interval)
    ensures now - e < WRAP ==> (Stale(e, now, interval) <==> LooksStale(e, now, interval))
  {
    AgeModulo(e, now);
  }

  /** In an ordered sequence exactly the newest events are fresh. */
  lemma {:induction false} FreshIsExact(es: seq<nat>, now: nat, interval: nat, i: nat)
    requires Ordered(es, now) && i < |es|
    ensures !Stale(es[i], now, interval) <==> i >= |es| - |Fresh(es, now, interval)|
  {
    var init, last := es[..|es| - 1], es[|es| - 1];
    if Stale(last, now, interval) {
      assert (now - es[i]) / 1000 >= (now - last) / 1000;
    } else if i < |es| - 1 {
      FreshIsExact(init, now, interval, i);
    }
  }

  /** The places of the events that are at most `interval` seconds old, to the full second. */
  ghost function Recent(es: seq<nat>, now: nat, interval: nat): set<nat> {
    set i: nat | i < |es| && now - es[i] < 1000 * (interval + 1)
  }

  lemma {:induction false} FreshCount(es: seq<nat>, now: nat, interval: nat)
    requires Ordered(es, now)
    ensures |Fresh(es, now, interval)| == |Recent(es, now, interval)|
  {
    if es == [] {
      assert Recent(es, now, interval) == {};
    } else {
      var n := |es| - 1;
      FreshCount(es[..n], now, interval);
      if Stale(es[n], now, interval) {
        assert Recent(es, now, interval) == {};
      } else {
        assert Recent(es, now, interval) == Recent(es[..n], now, interval) + {n};
      }
    }
  }

  /** The newest stale event, if there is one, looks stale too. */
  predicate NewestStaleLooksStale(es: seq<nat>, now: nat, interval: nat)
    requires Ordered(es, now)
  {
    var k := |es| - |Fresh(es, now, interval)|;
    k == 0 || LooksStale(es[k - 1], now, interval)
  }

  lemma NewestFirst(es: seq<nat>, now: nat, interval: nat)
    requires Ordered(es, now) && es != []
    ensures
      var init, last := es[..|es| - 1], es[|es| - 1];
      && Ordered(init, now) && last <= now
      && Fresh(es, now, interval) == (if Stale(last, now, interval) then [] else Fresh(init, now, interval) + [last])
      && Looking(es, now, interval) ==
         if LooksStale(last, now, interval) then [] else Looking(init, now, interval) + [last]
  {
    hide Stale, LooksStale;
  }

  /** The code's window is the true one exactly if the newest stale event looks stale. */
  lemma {:induction false} WindowIsTrueIff(es: seq<nat>, now: nat, interval: nat)
    requires Ordered(es, now) && interval <= MAX_INTERVAL
    ensures Looking(es, now, interval) == Fresh(es, now, interval) <==> NewestStaleLooksStale(es, now, interval)
  {
    if es != [] {
      hide LooksStale, Stale, Fresh, Looking, Ordered;
      var init, last := es[..|es| - 1], es[|es| - 1];
      NewestFirst(es, now, interval);
      LooksRight(last, now, interval);
      if !Stale(last, now, interval) {
        WindowIsTrueIff(init, now, interval);
      }
    }
  }

  /** No two consecutive events are further apart than the 32-bit clock can tell. */
  predicate CloseTogether(es: seq<nat>, interval: nat) {
    forall i :: 0 < i < |es| ==> es[i] - es[i - 1] < WRAP - 1000 * (interval + 1)
  }

  /** Then the code's window is the true one. */
  lemma CloseEventsSuffice(es: seq<nat>, now: nat, interval: nat)
    requires Ordered(es, now) && interval <= MAX_INTERVAL && CloseTogether(es, interval)
    requires es != [] ==> es[|es| - 1] == now
    ensures Looking(es, now, interval) == Fresh(es, now, interval)
  {
    hide Fresh, Looking;
    WindowIsTrueIff(es, now, interval);
    var k := |es| - |Fresh(es, now, interval)|;
    if k > 0 {
      FreshIsExact(es, now, interval, k - 1);
      FreshIsExact(es, now, interval, |es| - 1);
      FreshIsExact(es, now, interval, k);
      LooksRight(es[k - 1], now, interval);
    }
  }

  lemma StaleLater(e: nat, before: nat, now: nat, interval: nat)
    requires e <= before <= now && Stale(e, before, interval)
    ensures Stale(e, now, interval)
  {
  }

  lemma OrderedWindow(since: seq<nat>, before: nat, now: nat, interval: nat)
    requires Ordered(since, before) && before <= now
    ensures Ordered(since + [now], now) && Ordered(Fresh(since, before, interval) + [now], now)
  {
    hide Fresh, Stale;
  }

  /** What has been dropped as stale once stays stale. */
  lemma FreshOfWindow(since: seq<nat>, before: nat, now: nat, interval: nat)
    requires Ordered(since, before) && before <= now
    ensures Ordered(since + [now], now) && Ordered(Fresh(since, before, interval) + [now], now)
    ensures Fresh(Fresh(since, before, interval) + [now], now, interval) == Fresh(since + [now], now, interval)
  {
    hide Fresh, Stale;
    OrderedWindow(since, before, now, interval);
    var w, b := Fresh(since, before, interval), since + [now];
    var k, m := |b| - |Fresh(b, now, interval)|, |since| - |w|;
    if k < m {
      FreshIsExact(since, before, interval, k);
      StaleLater(since[k], before, now, interval);
      FreshIsExact(b, now, interval, k);
    }
    assert b[m..] == w + [now];
    FreshOfSuffix(b, m, now, interval);
  }

  lemma OrderedSuffix(b: seq<nat>, m: nat, now: nat)
    requires Ordered(b, now) && m <= |b|
    ensures Ordered(b[m..], now)
  {
  }

  /** Leaving out events that are stale does not change which are fresh. */
  lemma {:induction false} FreshOfSuffix(es: seq<nat>, m: nat, now: nat, interval: nat)
    requires Ordered(es, now) && m <= |es| - |Fresh(es, now, interval)|
    ensures Ordered(es[m..], now) && Fresh(es[m..], now, interval) == Fresh(es, now, interval)
    decreases |es|
  {
    OrderedSuffix(es, m, now);
    NothingFresh(now, interval);
    hide Fresh, Stale, Looking, LooksStale, Ordered;
    if m < |es| {
      NewestFirst(es, now, interval);
      NewestFirst(es[m..], now, interval);
      var init := es[..|es| - 1];
      assert es[m..][..|es[m..]| - 1] == init[m..];
      if !Stale(es[|es| - 1], now, interval) {
        FreshOfSuffix(init, m, now, interval);
      }
    }
  }

  /** A clock that has wrapped makes an event of 49 days ago look new. */
  lemma OldEventLooksNew()
    ensures Fresh([0, WRAP], WRAP, 60) == [WRAP] && Looking([0, WRAP], WRAP, 60) == [0, WRAP]
  {
    assert [0, WRAP][..1] == [0] && [0][..0] == [];
    assert Looking([0], WRAP, 60) == [0];
  }

  /** The times as they are stored. */
  function Lows(es: seq<nat>): (r: seq<nat>)
    ensures |r| == |es|
  {
    seq(|es|, i requires 0 <= i < |es| => Low(es[i]))
  }

  lemma LowsSlide(es: seq<nat>, t: nat, k: nat)
    requires k <= |es| + 1
    ensures Lows(es + [t]) == Lows(es) + [Low(t)]
    ensures Lows((es + [t])[k..]) == Lows(es + [t])[k..]
  {
    hide Low;
  }

  lemma KeptLows(es: seq<nat>, now: nat, interval: nat)
    ensures Lows(es)[|es| - |Looking(es, now, interval)|..] == Lows(Looking(es, now, interval))
  {
    hide Low, Looking;
  }

  lemma LowsAt(es: seq<nat>, i: nat)
    requires i < |es|
    ensures Lows(es)[i] == Low(es[i]) < WRAP
  {
  }

  lemma LookingStep(es: seq<nat>, i: nat, now: nat, interval: nat)
    requires i < |es|
    ensures Low(now) < WRAP && Lows(es)[i] < WRAP
    ensures
      var tooOld := Minus(Low(now), Lows(es)[i]) / 1000 > interval;
      |Looking(es[..i + 1], now, interval)| == if tooOld then 0 else 1 + |Looking(es[..i], now, interval)|
  {
    LowsAt(es, i);
    assert es[..i + 1][..i] == es[..i];
  }

  class Motion {
    const timestamps: array<nat>
    var idx: nat
    var getFix: bool
    /** The events since the array was last cleared, and those of them in the array. */
    ghost var since: seq<nat>
    ghost var window: seq<nat>

    constructor ()
      ensures Valid() && since == [] && !getFix && fresh(timestamps)
    {
      timestamps := new nat[MAX_EVENTS](_ => 0);
      idx, getFix, since, window := 0, false, [], [];
    }

    ghost predicate Valid()
      reads this, timestamps
    {
      && timestamps.Length == MAX_EVENTS && idx == |window| < MAX_EVENTS
      && timestamps[..idx] == Lows(window)
      && |window| <= |since| && window == since[|since| - |window|..]
    }

    ghost predicate Since(now: nat)
      reads this
    {
      Ordered(since, now)
    }

    /** prv_gps_motion_detection_clear_all_timestamps. */
    method ClearAll()
      requires timestamps.Length == MAX_EVENTS
      modifies this`idx, timestamps
      ensures idx == 0 && forall i :: 0 <= i < MAX_EVENTS ==> timestamps[i] == 0
    {
      for i := 0 to MAX_EVENTS
        invariant forall j :: 0 <= j < i ==> timestamps[j] == 0
      {
        timestamps[i] := 0;
      }
      idx := 0;
    }

    /** The number of events, from the newest back to the first that looks stale; `all` are those in the array. */
    method CountEvents(now: nat, interval: nat, ghost all: seq<nat>) returns (i: int, n: nat)
      requires timestamps.Length == MAX_EVENTS && idx < MAX_EVENTS && |all| == idx + 1
      requires timestamps[..idx + 1] == Lows(all)
      ensures i == idx - n && -1 <= i && n == |Looking(all, now, interval)|
    {
      hide Low, Lows, Minus, Looking;
      i, n := idx, 0;
      assert all[..idx + 1] == all;
      while i >= 0
        invariant -1 <= i <= idx && n == idx - i
        invariant |Looking(all, now, interval)| == n + |Looking(all[..i + 1], now, interval)|
      {
        LookingStep(all, i, now, interval);
        assert timestamps[i] == timestamps[..idx + 1][i];
        if Minus(Low(now), timestamps[i]) / 1000 > interval {
          break;
        }
        n := n + 1;
        i := i - 1;
      }
      if i < 0 {
        LookingAtNothing(all[..0], now, interval);
      }
    }

    /** memmove to the start of the array. */
    method MoveDown(from: nat, n: nat)
      requires from + n <= timestamps.Length
      modifies timestamps
      ensures timestamps[..n] == old(timestamps[from..from + n])
    {
      for i := 0 to n
        invariant timestamps[..i] == old(timestamps[from..from + i])
        invariant forall j :: from + i <= j < timestamps.Length ==> timestamps[j] == old(timestamps[j])
      {
        timestamps[i] := timestamps[from + i];
      }
    }

    method StoreEvent(now: nat)
      requires Valid()
      modifies timestamps
      ensures timestamps[..idx + 1] == Lows(window + [now])
    {
      hide Low, Lows;
      ghost var was := timestamps[..idx];
      timestamps[idx] := Low(now);
      LowsSlide(window, now, 0);
      assert timestamps[..idx + 1] == was + [Low(now)];
    }

    /** Store the event and drop what looks stale. */
    method Slide(now: nat, interval: nat) returns (n: nat)
      requires Valid()
      modifies this`idx, this`window, this`since, timestamps
      ensures window == Looking(old(window) + [now], now, interval) && since == old(since) + [now]
      ensures n == idx == |window| <= MAX_EVENTS && timestamps.Length == MAX_EVENTS
      ensures timestamps[..n] == Lows(window)
      ensures |window| <= |since| && window == since[|since| - |window|..]
    {
      hide Low, Looking, Lows;
      ghost var all := window + [now];
      StoreEvent(now);
      var i;
      i, n := CountEvents(now, interval, all);
      ghost var stored := timestamps[..idx + 1];
      KeptLows(all, now, interval);
      MoveDown(i + 1, n);
      assert timestamps[..n] == stored[|all| - n..];
      idx := n;
      SlideSuffix(since, window, now, interval);
      window, since := Looking(all, now, interval), since + [now];
    }

    /**
     gps_motion_triggered_event_handler.  The array never overflows, a fix is requested when enough
     events do not look stale, and the window is then emptied.  With no two events further apart than
     the 32-bit clock can tell, those are exactly the events since the last clearing that are at most
     `interval` seconds old.
     */
    method HandleEvent(now: nat, enabled: bool, interval: nat, threshold: nat)
      requires Valid() && Since(now) && interval <= MAX_INTERVAL && threshold <= 255
      modifies this, timestamps
      ensures Valid()
      ensures !enabled || threshold == 0 || interval == 0 ==>
        getFix == old(getFix) && window == old(window) && since == old(since)
      ensures enabled && threshold > 0 && interval > 0 ==>
        Handled(old(window), old(since), old(getFix), now, interval, threshold)
    {
      if !enabled || threshold == 0 || interval == 0 {
        return;
      }
      hide Low, Lows, Looking, Fresh, Ordered;
      var n := Slide(now, interval);
      if n >= threshold {
        getFix := true;
        ClearAll();
        window, since := [], [];
      }
    }

    ghost predicate Handled(window0: seq<nat>, since0: seq<nat>, getFix0: bool, now: nat, interval: nat, threshold: nat)
      reads this, timestamps
    {
      var w := Looking(window0 + [now], now, interval);
      if |w| >= threshold then
        && getFix && window == [] && since == [] && idx == 0
        && forall i :: 0 <= i < timestamps.Length ==> timestamps[i] == 0
      else
        getFix == getFix0 && window == w && since == since0 + [now]
    }

    /** What an event does to a window that is the true one, if the events are close enough together. */
    lemma HandledIsTrueWindow(window0: seq<nat>, since0: seq<nat>, getFix0: bool, before: nat, now: nat,
                              interval: nat, threshold: nat)
      requires Handled(window0, since0, getFix0, now, interval, threshold) && threshold > 0
      requires interval <= MAX_INTERVAL && before <= now && Ordered(since0, before)
      requires window0 == Fresh(since0, before, interval) && CloseTogether(since0 + [now], interval)
      ensures Ordered(since0 + [now], now)
      ensures
        var w := Fresh(since0 + [now], now, interval);
        && |w| == |Recent(since0 + [now], now, interval)|
        && (|w| >= threshold ==> getFix && since == [])
        && (|w| < threshold ==> getFix == getFix0 && since == since0 + [now])
        && Ordered(since, now) && window == Fresh(since, now, interval)
    {
      hide Looking, Fresh, CloseTogether, Ordered, Stale;
      FreshOfWindow(since0, before, now, interval);
      var m := |since0| - |window0|;
      assert window0 + [now] == (since0 + [now])[m..];
      CloseSuffix(since0 + [now], m, interval);
      CloseEventsSuffice(window0 + [now], now, interval);
      NothingFresh(now, interval);
      FreshCount(since0 + [now], now, interval);
    }
  }

  /** The new window is still the end of what has happened since the clearing. */
  lemma SlideSuffix(since: seq<nat>, window: seq<nat>, now: nat, interval: nat)
    requires |window| <= |since| && window == since[|since| - |window|..]
    ensures
      var w, all := Looking(window + [now], now, interval), since + [now];
      |w| <= |all| && w == all[|all| - |w|..] && w == (window + [now])[|window| + 1 - |w|..]
  {
    hide Looking;
    var w := Looking(window + [now], now, interval);
    assert window + [now] == (since + [now])[|since| - |window|..];
  }

  lemma NothingFresh(now: nat, interval: nat)
    ensures Fresh([], now, interval) == [] && Ordered([], now)
  {
  }

  lemma CloseSuffix(es: seq<nat>, m: nat, interval: nat)
    requires m <= |es| && CloseTogether(es, interval)
    ensures CloseTogether(es[m..], interval)
  {
    forall i | 0 < i < |es[m..]|
      ensures es[m..][i] - es[m..][i - 1] < WRAP - 1000 * (interval + 1)
    {
      assert es[m..][i] == es[m + i] && es[m..][i - 1] == es[m + i - 1];
    }
  }

  lemma LookingAtNothing(es: seq<nat>, now: nat, interval: nat)
    requires es == []
    ensures Looking(es, now, interval) == []
  {
  }
}
