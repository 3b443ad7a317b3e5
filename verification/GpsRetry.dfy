/**
 The retry machine of the GPS (app/src/gps_ublox/gps.c): hot fixes fall back to cold fixes, and after
 enough failed cold fixes no further attempt is made automatically.
 */
module GpsRetry {

  /** The part of prv_ctx that decides what to try, and whether to try. */
  datatype Context = Context(coldFix: bool, hotFix: bool, coldRetry: nat, hotRetry: nat,
                             lastFixSuccess: bool, retryExhausted: bool)

  /** hot_fix_retry and cold_fix_retry, which are between 1 and 255. */
  datatype Settings = Settings(hot: nat, cold: nat)

  /** One turn of an acquisition loop: new data, the minimum fix time is over, too few satellites. */
  datatype Turn = Turn(newData: bool, longEnough: bool, fewSatellites: bool)

  /** New data comes before the acquisition is given up. */
  predicate Hit(turns: seq<Turn>) {
    turns != [] && (turns[0].newData || (!turns[0].fewSatellites && Hit(turns[1..])))
  }

  /** Turn `i` has new data, and no turn before it has too few satellites. */
  ghost predicate HitAt(turns: seq<Turn>, i: nat) {
    i < |turns| && turns[i].newData && forall j :: 0 <= j < i ==> !turns[j].fewSatellites
  }

  lemma {:induction false} HitIsFound(turns: seq<Turn>) returns (i: nat)
    requires Hit(turns)
    ensures HitAt(turns, i)
    decreases |turns|
  {
    i := 0;
    if !turns[0].newData {
      i := HitIsFound(turns[1..]);
      i := i + 1;
      assert forall j :: 0 < j < i ==> turns[j] == turns[1..][j - 1];
    }
  }

  lemma {:induction false} FoundIsHit(turns: seq<Turn>, i: nat)
    requires HitAt(turns, i)
    ensures Hit(turns)
    decreases |turns|
  {
    if i > 0 {
      FoundIsHit(turns[1..], i - 1);
    }
  }

  lemma HitIff(turns: seq<Turn>)
    ensures Hit(turns) <==> exists i: nat :: HitAt(turns, i)
  {
    if Hit(turns) {
      var i := HitIsFound(turns);
    } else if i: nat :| HitAt(turns, i) {
      FoundIsHit(turns, i);
    }
  }

  /** A new context, as after gps_reset_fix_state. */
  function Initial(): Context {
    Context(false, false, 0, 0, false, false)
  }

  /** An attempt, which hits or not; `expired` when the last cold fix is too old. */
  function Attempted(c: Context, expired: bool, hit: bool, s: Settings): Context {
    if !c.coldFix || expired then
      if hit then c.(coldFix := true, coldRetry := 0, hotRetry := 0, lastFixSuccess := true, retryExhausted := false)
      else
        c.(coldFix := false, coldRetry := c.coldRetry + 1, lastFixSuccess := false,
          retryExhausted := c.retryExhausted || c.coldRetry + 1 > s.cold)
    else
      if hit then c.(hotFix := true, hotRetry := 0, lastFixSuccess := true, retryExhausted := false)
      else c.(hotFix := false, hotRetry := c.hotRetry + 1, lastFixSuccess := false, coldFix := c.hotRetry + 1 <= s.hot)
  }

  /** Once the cold fix is too old the attempt is a cold one, whatever came before. */
  lemma ExpiredIsCold(c: Context, expired: bool, hit: bool, s: Settings)
    ensures Attempted(c, true, hit, s) == Attempted(c.(coldFix := false), expired, hit, s)
  {
  }

  /** What every context keeps. */
  predicate Inv(c: Context, s: Settings) {
    && (c.coldFix ==> c.coldRetry == 0 && c.hotRetry <= s.hot && !c.retryExhausted)
    && (c.retryExhausted <==> c.coldRetry > s.cold)
  }

  /** The failures left before the limit is reached. */
  function Left(c: Context, s: Settings): nat {
    if c.coldFix then (if c.hotRetry <= s.hot then s.hot + 1 - c.hotRetry else 0) + s.cold + 1
    else if c.coldRetry <= s.cold then s.cold + 1 - c.coldRetry
    else 0
  }

  lemma AttemptKeeps(c: Context, expired: bool, hit: bool, s: Settings)
    requires Inv(c, s)
    ensures Inv(Attempted(c, expired, hit, s), s)
  {
  }

  /** A failure brings the limit nearer, by one unless a hot fix has become too old; the limit is at zero. */
  lemma FailureCounts(c: Context, expired: bool, s: Settings)
    requires Inv(c, s)
    ensures Left(c, s) <= s.hot + s.cold + 2
    ensures Left(c, s) == 0 <==> c.retryExhausted
    ensures !c.retryExhausted ==> Left(Attempted(c, expired, false, s), s) < Left(c, s)
    ensures !c.retryExhausted && !(c.coldFix && expired) ==> Left(Attempted(c, expired, false, s), s) == Left(c, s) - 1
    ensures c.retryExhausted ==> Attempted(c, expired, false, s).retryExhausted
  {
  }

  /**
   A lexicographic view: a failure gives up the cold fix, or keeps it and uses up a hot retry, or uses
   up a cold retry.
   */
  lemma FailureDescends(c: Context, expired: bool, s: Settings)
    requires Inv(c, s) && !c.retryExhausted
    ensures
      var d := Attempted(c, expired, false, s);
      || (c.coldFix && !d.coldFix)
      || (c.coldFix && d.coldFix && c.hotRetry < d.hotRetry <= s.hot)
      || (!c.coldFix && !d.coldFix && c.hotRetry == d.hotRetry && c.coldRetry < d.coldRetry <= s.cold + 1)
  {
  }

  /** Any success restores all attempts. */
  lemma SuccessRestores(c: Context, expired: bool, s: Settings)
    requires Inv(c, s)
    ensures
      var d := Attempted(c, expired, true, s);
      d.coldFix && !d.retryExhausted && Left(d, s) == s.hot + s.cold + 2
  {
  }

  /** The context after failed attempts, of which the k-th finds its cold fix expired or not. */
  function Failed(c: Context, expired: seq<bool>, s: Settings): Context {
    if expired == [] then c else Attempted(Failed(c, expired[..|expired| - 1], s), expired[|expired| - 1], false, s)
  }

  /** No attempt of a run of failures is made once the limit is reached. */
  predicate GateOpen(c: Context, expired: seq<bool>, s: Settings) {
    forall k :: 0 <= k < |expired| ==> !Failed(c, expired[..k], s).retryExhausted
  }

  lemma {:induction false} FailuresCount(c: Context, expired: seq<bool>, s: Settings)
    requires Inv(c, s) && GateOpen(c, expired, s)
    ensures Inv(Failed(c, expired, s), s)
    ensures |expired| + Left(Failed(c, expired, s), s) <= Left(c, s)
    ensures (forall k :: 0 <= k < |expired| ==> !expired[k]) ==>
      |expired| + Left(Failed(c, expired, s), s) == Left(c, s)
  {
    if expired != [] {
      hide Attempted, Inv, Left;
      var init, last := expired[..|expired| - 1], expired[|expired| - 1];
      forall k | 0 <= k < |init|
        ensures !Failed(c, init[..k], s).retryExhausted
      {
        assert init[..k] == expired[..k];
      }
      FailuresCount(c, init, s);
      AttemptKeeps(Failed(c, init, s), last, false, s);
      FailureCounts(Failed(c, init, s), last, s);
      assert !Failed(c, expired[..|init|], s).retryExhausted;
    }
  }

  /**
   At most hot_fix_retry + cold_fix_retry + 2 attempts in a row fail before the gate refuses; and if
   no cold fix expires on the way, it refuses after exactly as many failures as were left.
   */
  lemma FailuresAreBounded(c: Context, expired: seq<bool>, s: Settings)
    requires Inv(c, s) && GateOpen(c, expired, s)
    ensures |expired| <= s.hot + s.cold + 2
    ensures
      (forall k :: 0 <= k < |expired| ==> !expired[k]) ==>
        (Failed(c, expired, s).retryExhausted <==> |expired| == Left(c, s))
  {
    hide Attempted, Inv, Left, Failed, GateOpen;
    FailuresCount(c, expired, s);
    FailureCounts(c, false, s);
    FailureCounts(Failed(c, expired, s), false, s);
  }

  /**
   From a cold fix on, without expiry: hot_fix_retry failed hot fixes are borne, the next one gives up
   the cold fix, then cold_fix_retry failed cold fixes are borne, and the next one ends the attempts.
   */
  lemma {:induction false} HotThenCold(c: Context, expired: seq<bool>, s: Settings)
    requires c.coldFix && c.hotRetry == 0 && c.coldRetry == 0 && !c.retryExhausted
    requires forall k :: 0 <= k < |expired| ==> !expired[k]
    ensures
      var d, n := Failed(c, expired, s), |expired|;
      && (d.coldFix <==> n <= s.hot)
      && (d.retryExhausted <==> n >= s.hot + s.cold + 2)
      && (n <= s.hot + 1 ==> d.hotRetry == n && d.coldRetry == 0)
      && (n > s.hot ==> d.coldRetry == n - s.hot - 1)
  {
    if expired != [] {
      HotThenCold(c, expired[..|expired| - 1], s);
    }
  }

  class Retry {
    var enabled: bool
    var coldFix: bool
    var hotFix: bool
    var coldRetry: nat
    var hotRetry: nat
    var lastFixSuccess: bool
    var retryExhausted: bool

    constructor ()
      ensures Now() == Initial() && !enabled
    {
      enabled, coldFix, hotFix, coldRetry, hotRetry := false, false, false, 0, 0;
      lastFixSuccess, retryExhausted := false, false;
    }

    ghost function Now(): Context
      reads this
    {
      Context(coldFix, hotFix, coldRetry, hotRetry, lastFixSuccess, retryExhausted)
    }

    /** gps_reset_fix_state. */
    method ResetFixState()
      modifies this
      ensures Now() == Initial() && enabled == old(enabled)
    {
      coldFix := false;
      hotFix := false;
      coldRetry := 0;
      hotRetry := 0;
      lastFixSuccess := false;
      retryExhausted := false;
    }

    /** The cold fix loop. */
    method AcquireCold(turns: seq<Turn>)
      requires !coldFix && !lastFixSuccess
      modifies this`coldFix, this`coldRetry, this`hotRetry, this`lastFixSuccess
      ensures coldFix == lastFixSuccess == Hit(turns)
      ensures
        if Hit(turns) then coldRetry == 0 && hotRetry == 0
        else coldRetry == old(coldRetry) && hotRetry == old(hotRetry)
    {
      var i := 0;
      while !lastFixSuccess && i < |turns|
        invariant 0 <= i <= |turns| && !lastFixSuccess && !coldFix
        invariant coldRetry == old(coldRetry) && hotRetry == old(hotRetry)
        invariant Hit(turns) <==> Hit(turns[i..])
      {
        assert turns[i..][0] == turns[i] && turns[i..][1..] == turns[i + 1..];
        if turns[i].newData {
          coldFix := true;
          coldRetry := 0;
          hotRetry := 0;
          lastFixSuccess := true;
          break;
        }
        if turns[i].fewSatellites {
          break;
        }
        i := i + 1;
      }
    }

    /** The hot fix loop, which goes on after a fix until the minimum fix time is over. */
    method AcquireHot(turns: seq<Turn>)
      requires !lastFixSuccess
      modifies this`hotFix, this`hotRetry, this`lastFixSuccess
      ensures hotFix == lastFixSuccess == Hit(turns)
      ensures hotRetry == if Hit(turns) then 0 else old(hotRetry)
    {
      hotFix := false;
      var i := 0;
      while i < |turns|
        invariant 0 <= i <= |turns| && hotFix == lastFixSuccess
        invariant hotRetry == if hotFix then 0 else old(hotRetry)
        invariant Hit(turns) <==> hotFix || Hit(turns[i..])
      {
        assert turns[i..][0] == turns[i] && turns[i..][1..] == turns[i + 1..];
        if turns[i].newData {
          hotFix := true;
          hotRetry := 0;
          lastFixSuccess := true;
          if turns[i].longEnough {
            break;
          }
        }
        if turns[i].fewSatellites {
          break;
        }
        i := i + 1;
      }
    }

    /** gps_get_fix without active tracking. */
    method GetFix(turns: seq<Turn>, expired: bool, s: Settings) returns (error: bool)
      modifies this
      ensures error == !old(enabled) && enabled == old(enabled)
      ensures Now() ==
        if error then old(Now()).(lastFixSuccess := false) else Attempted(old(Now()), expired, Hit(turns), s)
    {
      lastFixSuccess := false;
      if !enabled {
        return true;
      }
      if coldFix && expired {
        coldFix := false;
      }
      if !coldFix {
        AcquireCold(turns);
        if !coldFix {
          coldRetry := coldRetry + 1;
        }
        if coldRetry > s.cold {
          retryExhausted := true;
        }
      } else {
        AcquireHot(turns);
        if !hotFix {
          hotRetry := hotRetry + 1;
        }
        if hotRetry > s.hot {
          coldFix := false;
        }
      }
      if lastFixSuccess {
        retryExhausted := false;
      }
      return false;
    }

    /** The gate at the start of gps_send_interval; `due` is what the rest of it decides. */
    method SendInterval(due: bool) returns (attempt: bool)
      ensures attempt <==> enabled && !retryExhausted && due
    {
      if !enabled {
        return false;
      }
      if retryExhausted {
        return false;
      }
      return due;
    }
  }
}
