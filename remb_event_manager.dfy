/**
 * The REMB event manager: it remembers, per SSRC, the last bitrate a receiver
 * reported and when, forgets reports older than the clear interval, and keeps
 * the minimum of the remembered bitrates, telling a callback whenever that
 * minimum changes. The clock is a parameter of every operation.
 */
module RembEvents {
  import opened KmsUtils

  const U32: int := 0x1_0000_0000

  /** A guint: bitrates and SSRCs. */
  type UInt32 = x: int | 0 <= x < U32

  /** Reports older than this (ten seconds) are forgotten. */
  const DEFAULT_CLEAR_INTERVAL: ClockTime := 10 * SECOND

  /** One table entry: the last reported bitrate and the time it was reported. */
  datatype RembValue = RembValue(bitrate: UInt32, ts: ClockTime)

  /**
   * An entry is stale when more than `interval` has passed since it was
   * stamped. The distance is an unsigned 64-bit difference, so a stamp later
   * than `now` wraps to a huge distance and counts as stale unless it lies at
   * least 2^64 - interval ahead.
   */
  function Stale(now: ClockTime, ts: ClockTime, interval: ClockTime): (r: bool)
    ensures ts <= now ==> (r <==> now - ts > interval)
    ensures now < ts ==> (r <==> ts - now < U64 - interval)
  {
    Sub64(now, ts) > interval
  }

  /** The entries that are not stale at `now`. */
  function Survivors(t: map<UInt32, RembValue>, now: ClockTime, interval: ClockTime): map<UInt32, RembValue>
  {
    map k | k in t && !Stale(now, t[k].ts, interval) :: t[k]
  }

  // ---------------------------------------------------------------------------
  // The running minimum, in the order the table is visited
  // ---------------------------------------------------------------------------

  /** One step of the scan: a running value of 0 means "nothing yet". */
  function NextMin(running: UInt32, br: UInt32): (r: UInt32)
    ensures running == 0 ==> r == br
    ensures running != 0 ==> r <= running && r <= br && (r == running || r == br)
  {
    if running == 0 then br else if br < running then br else running
  }

  /** The running minimum after visiting `bitrates` in order, starting from 0: 0 or a visited bitrate. */
  function ScanMin(bitrates: seq<UInt32>): (r: UInt32)
    ensures r == 0 || r in bitrates
  {
    if bitrates == [] then 0
    else
      var init := bitrates[..|bitrates| - 1];
      assert bitrates == init + [bitrates[|bitrates| - 1]];
      NextMin(ScanMin(init), bitrates[|bitrates| - 1])
  }

  lemma ScanMinAppend(bitrates: seq<UInt32>, br: UInt32)
    ensures ScanMin(bitrates + [br]) == NextMin(ScanMin(bitrates), br)
  {
    assert (bitrates + [br])[..|bitrates|] == bitrates;
  }

  /**
   * When every visited bitrate is nonzero, the scan yields the least of them,
   * whatever the order.
   */
  lemma {:induction false} ScanMinIsLeast(bitrates: seq<UInt32>)
    requires bitrates != []
    requires forall i :: 0 <= i < |bitrates| ==> bitrates[i] > 0
    ensures ScanMin(bitrates) in bitrates
    ensures forall i :: 0 <= i < |bitrates| ==> ScanMin(bitrates) <= bitrates[i]
  {
    var init := bitrates[..|bitrates| - 1];
    if init != [] {
      ScanMinIsLeast(init);
      assert forall i :: 0 <= i < |init| ==> init[i] == bitrates[i];
    }
  }

  /**
   * With a zero bitrate among the entries the result depends on the visiting
   * order: a zero seen first is replaced by the next bitrate, a zero seen last
   * wins.
   */
  lemma ScanMinDependsOnOrderWithZero()
    ensures ScanMin([0, 5]) == 5
    ensures ScanMin([5, 0]) == 0
  {
    ScanMinAppend([0], 5);
    ScanMinAppend([5], 0);
  }

  /** The computed minimum, or the default when nothing was found and a default is given. */
  function WithDefault(computed: UInt32, defaultMin: UInt32): (r: UInt32)
    ensures computed != 0 ==> r == computed
    ensures computed == 0 ==> r == defaultMin
  {
    if computed == 0 && defaultMin > 0 then defaultMin else computed
  }

  /** `order` lists every key of `t` exactly once. */
  ghost predicate IsEnumeration(order: seq<UInt32>, t: map<UInt32, RembValue>)
  {
    && (forall i :: 0 <= i < |order| ==> order[i] in t)
    && (forall k :: k in t ==> k in order)
    && (forall i, j :: 0 <= i < j < |order| ==> order[i] != order[j])
  }

  /** The bitrates of the entries of `t`, in the order `order` lists their keys. */
  ghost function BitratesOf(order: seq<UInt32>, t: map<UInt32, RembValue>): (bs: seq<UInt32>)
    requires forall i :: 0 <= i < |order| ==> order[i] in t
    ensures |bs| == |order|
    ensures forall i :: 0 <= i < |order| ==> bs[i] == t[order[i]].bitrate
  {
    seq(|order|, i requires 0 <= i < |order| => t[order[i]].bitrate)
  }

  /**
   * What a rescan of table `t` at `now` with default `defaultMin` leaves behind:
   * the table keeps exactly the fresh entries; the oldest time is the least
   * surviving stamp (the "no time" marker if nothing survives); the minimum is
   * the running minimum over the survivors in some visiting order, replaced by
   * the default when it came out 0 and the default is positive.
   */
  ghost predicate RescanOutcome(t: map<UInt32, RembValue>, now: ClockTime, interval: ClockTime, defaultMin: UInt32,
                                t': map<UInt32, RembValue>, min': UInt32, oldest': ClockTime)
  {
    && t' == Survivors(t, now, interval)
    && (forall k :: k in t' ==> oldest' <= t'[k].ts)
    && (oldest' == CLOCK_TIME_NONE || exists k :: k in t' && t'[k].ts == oldest')
    && exists order :: IsEnumeration(order, t') && min' == WithDefault(ScanMin(BitratesOf(order, t')), defaultMin)
  }

  /** The callback log after the minimum moved from `oldMin` to `newMin`. */
  function Notify(oldMin: UInt32, newMin: UInt32, log: seq<UInt32>, hasCallback: bool): (r: seq<UInt32>)
    ensures |log| <= |r| <= |log| + 1 && r[..|log|] == log
    ensures |r| == |log| + 1 <==> newMin != oldMin && hasCallback
    ensures |r| == |log| + 1 ==> r[|log|] == newMin
  {
    if newMin != oldMin && hasCallback then log + [newMin] else log
  }

  // ---------------------------------------------------------------------------
  // Properties of a rescan
  // ---------------------------------------------------------------------------

  /**
   * After a rescan in which every surviving bitrate is nonzero, the minimum is
   * exactly the least surviving bitrate.
   */
  lemma RescanNonzeroMinimum(t: map<UInt32, RembValue>, now: ClockTime, interval: ClockTime, defaultMin: UInt32,
                             t': map<UInt32, RembValue>, min': UInt32, oldest': ClockTime)
    requires RescanOutcome(t, now, interval, defaultMin, t', min', oldest')
    requires t' != map[]
    requires forall k :: k in t' ==> t'[k].bitrate > 0
    ensures exists k :: k in t' && t'[k].bitrate == min'
    ensures forall k :: k in t' ==> min' <= t'[k].bitrate
  {
    var order :| IsEnumeration(order, t') && min' == WithDefault(ScanMin(BitratesOf(order, t')), defaultMin);
    var bs := BitratesOf(order, t');
    var k0 :| k0 in t';
    assert k0 in order;
    ScanMinIsLeast(bs);
    var i :| 0 <= i < |bs| && bs[i] == ScanMin(bs);
    assert t'[order[i]].bitrate == min';
    forall k | k in t' ensures min' <= t'[k].bitrate {
      var j :| 0 <= j < |order| && order[j] == k;
      assert bs[j] == t'[k].bitrate;
    }
  }

  /**
   * After a rescan that leaves nothing, the minimum is the default (0 when no
   * default is given) and the oldest time is the "no time" marker.
   */
  lemma RescanEmpty(t: map<UInt32, RembValue>, now: ClockTime, interval: ClockTime, defaultMin: UInt32,
                    t': map<UInt32, RembValue>, min': UInt32, oldest': ClockTime)
    requires RescanOutcome(t, now, interval, defaultMin, t', min', oldest')
    requires forall k :: k in t ==> Stale(now, t[k].ts, interval)
    ensures t' == map[]
    ensures min' == defaultMin && oldest' == CLOCK_TIME_NONE
  {
    var order :| IsEnumeration(order, t') && min' == WithDefault(ScanMin(BitratesOf(order, t')), defaultMin);
    assert t'.Keys == {};
  }

  /** The minimum after a rescan is the default or one of the surviving bitrates. */
  lemma RescanMinimumSource(t: map<UInt32, RembValue>, now: ClockTime, interval: ClockTime, defaultMin: UInt32,
                            t': map<UInt32, RembValue>, min': UInt32, oldest': ClockTime)
    requires RescanOutcome(t, now, interval, defaultMin, t', min', oldest')
    ensures min' == defaultMin || exists k :: k in t' && t'[k].bitrate == min'
  {
    var order :| IsEnumeration(order, t') && min' == WithDefault(ScanMin(BitratesOf(order, t')), defaultMin);
    var bs := BitratesOf(order, t');
    if min' != defaultMin {
      var i :| 0 <= i < |bs| && bs[i] == min';
      assert t'[order[i]].bitrate == min';
    }
  }

  /**
   * After a rescan that keeps an entry, the oldest time is not stale at the
   * same instant, so an immediate second check does not rescan again.
   */
  lemma RescanLeavesFreshOldest(t: map<UInt32, RembValue>, now: ClockTime, interval: ClockTime, defaultMin: UInt32,
                                t': map<UInt32, RembValue>, min': UInt32, oldest': ClockTime)
    requires RescanOutcome(t, now, interval, defaultMin, t', min', oldest')
    requires t' != map[]
    ensures !Stale(now, oldest', interval)
  {
    var k :| k in t';
    if oldest' != CLOCK_TIME_NONE {
      var k' :| k' in t' && t'[k'].ts == oldest';
    } else {
      assert t'[k].ts == oldest';
    }
  }

  /**
   * After a rescan that keeps nothing, the oldest time is the "no time" marker
   * and every later check at a time t with t + 1 beyond the interval (and no
   * wrap) finds it stale and rescans again.
   */
  lemma EmptyTableRescansAgain(now: ClockTime, interval: ClockTime)
    requires now + 1 < U64 && now + 1 > interval
    ensures Stale(now, CLOCK_TIME_NONE, interval)
  {
    SubNoneWraps(now);
  }

  // ---------------------------------------------------------------------------
  // Loop bookkeeping of a rescan
  // ---------------------------------------------------------------------------

  /** The table while a rescan of `t0` still has `remaining` to visit. */
  function Kept(t0: map<UInt32, RembValue>, remaining: set<UInt32>, now: ClockTime, interval: ClockTime): map<UInt32, RembValue>
  {
    map k | k in t0 && (k in remaining || !Stale(now, t0[k].ts, interval)) :: t0[k]
  }

  lemma KeptStep(t0: map<UInt32, RembValue>, remaining: set<UInt32>, k: UInt32, now: ClockTime, interval: ClockTime)
    requires k in remaining && k in t0
    ensures Kept(t0, remaining - {k}, now, interval) ==
              if Stale(now, t0[k].ts, interval) then Kept(t0, remaining, now, interval) - {k}
              else Kept(t0, remaining, now, interval)
  {
  }

  /** `order` lists, once each, the fresh keys of `t0` already visited. */
  ghost predicate Visited(order: seq<UInt32>, t0: map<UInt32, RembValue>, remaining: set<UInt32>, now: ClockTime, interval: ClockTime)
  {
    && (forall i :: 0 <= i < |order| ==> order[i] in t0 && order[i] !in remaining && !Stale(now, t0[order[i]].ts, interval))
    && (forall k :: k in t0 && k !in remaining && !Stale(now, t0[k].ts, interval) ==> k in order)
    && (forall i, j :: 0 <= i < j < |order| ==> order[i] != order[j])
  }

  lemma VisitStale(order: seq<UInt32>, t0: map<UInt32, RembValue>, remaining: set<UInt32>, k: UInt32, now: ClockTime, interval: ClockTime)
    requires Visited(order, t0, remaining, now, interval)
    requires k in remaining && k in t0 && Stale(now, t0[k].ts, interval)
    ensures Visited(order, t0, remaining - {k}, now, interval)
  {
  }

  lemma VisitFresh(order: seq<UInt32>, t0: map<UInt32, RembValue>, remaining: set<UInt32>, k: UInt32, now: ClockTime, interval: ClockTime)
    requires Visited(order, t0, remaining, now, interval)
    requires k in remaining && k in t0 && !Stale(now, t0[k].ts, interval)
    ensures Visited(order + [k], t0, remaining - {k}, now, interval)
    ensures BitratesOf(order + [k], t0) == BitratesOf(order, t0) + [t0[k].bitrate]
  {
    var o := order + [k];
    assert forall i :: 0 <= i < |order| ==> o[i] == order[i];
  }

  /** `oldest` is the least stamp among the visited keys, or the "no time" marker. */
  ghost predicate OldestOf(oldest: ClockTime, order: seq<UInt32>, t0: map<UInt32, RembValue>)
    requires forall i :: 0 <= i < |order| ==> order[i] in t0
  {
    && (forall i :: 0 <= i < |order| ==> oldest <= t0[order[i]].ts)
    && (oldest == CLOCK_TIME_NONE || exists i :: 0 <= i < |order| && t0[order[i]].ts == oldest)
  }

  lemma OldestStep(oldest: ClockTime, order: seq<UInt32>, t0: map<UInt32, RembValue>, k: UInt32)
    requires forall i :: 0 <= i < |order| ==> order[i] in t0
    requires k in t0 && OldestOf(oldest, order, t0)
    ensures OldestOf(if t0[k].ts < oldest then t0[k].ts else oldest, order + [k], t0)
  {
    var o := order + [k];
    assert forall i :: 0 <= i < |order| ==> o[i] == order[i];
    if oldest != CLOCK_TIME_NONE && oldest <= t0[k].ts {
      var i :| 0 <= i < |order| && t0[order[i]].ts == oldest;
      assert t0[o[i]].ts == oldest;
    } else if t0[k].ts < oldest {
      assert t0[o[|order|]].ts == t0[k].ts;
    }
  }

  /** Once every key is visited the loop state is the promised outcome. */
  lemma ScanDone(order: seq<UInt32>, t0: map<UInt32, RembValue>, now: ClockTime, interval: ClockTime, oldest: ClockTime)
    requires Visited(order, t0, {}, now, interval)
    requires OldestOf(oldest, order, t0)
    ensures Kept(t0, {}, now, interval) == Survivors(t0, now, interval)
    ensures IsEnumeration(order, Survivors(t0, now, interval))
    ensures BitratesOf(order, Survivors(t0, now, interval)) == BitratesOf(order, t0)
    ensures forall k :: k in Survivors(t0, now, interval) ==> oldest <= Survivors(t0, now, interval)[k].ts
    ensures oldest == CLOCK_TIME_NONE || exists k :: k in Survivors(t0, now, interval) && Survivors(t0, now, interval)[k].ts == oldest
  {
    var s := Survivors(t0, now, interval);
    forall k | k in s ensures oldest <= s[k].ts {
      var i :| 0 <= i < |order| && order[i] == k;
    }
    if oldest != CLOCK_TIME_NONE {
      var i :| 0 <= i < |order| && t0[order[i]].ts == oldest;
      assert s[order[i]].ts == oldest;
    }
  }

  // ---------------------------------------------------------------------------
  // The manager
  // ---------------------------------------------------------------------------

  class RembEventManager {
    /** The current minimum bitrate. */
    var rembMin: UInt32
    /** SSRC to last report. */
    var rembTable: map<UInt32, RembValue>
    /** The least stamp in the table as of the last rescan. */
    var oldestRembTime: ClockTime
    var clearInterval: ClockTime
    /** Whether a callback is installed. */
    var hasCallback: bool
    /** The values handed to the callback, in order. */
    var notifications: seq<UInt32>

    /** A fresh manager created at clock time `now`. */
    constructor (now: ClockTime)
      ensures rembMin == 0 && rembTable == map[] && oldestRembTime == now
      ensures clearInterval == DEFAULT_CLEAR_INTERVAL
      ensures !hasCallback && notifications == []
    {
      rembMin := 0;
      rembTable := map[];
      oldestRembTime := now;
      clearInterval := DEFAULT_CLEAR_INTERVAL;
      hasCallback := false;
      notifications := [];
    }

    /** Installs (`enabled`) or removes the callback. */
    method SetCallback(enabled: bool)
      modifies this
      ensures hasCallback == enabled
      ensures rembMin == old(rembMin) && rembTable == old(rembTable) && oldestRembTime == old(oldestRembTime)
      ensures clearInterval == old(clearInterval) && notifications == old(notifications)
    {
      hasCallback := enabled;
    }

    method SetClearInterval(interval: ClockTime)
      modifies this
      ensures clearInterval == interval
      ensures rembMin == old(rembMin) && rembTable == old(rembTable) && oldestRembTime == old(oldestRembTime)
      ensures hasCallback == old(hasCallback) && notifications == old(notifications)
    {
      clearInterval := interval;
    }

    function GetClearInterval(): (r: ClockTime)
      reads this
      ensures r == clearInterval
    {
      clearInterval
    }

    /** Stores a new minimum; the callback hears of it only when it differs from the old one. */
    method SetMin(min: UInt32)
      modifies this
      ensures rembMin == min
      ensures notifications == Notify(old(rembMin), min, old(notifications), hasCallback)
      ensures rembTable == old(rembTable) && oldestRembTime == old(oldestRembTime)
      ensures clearInterval == old(clearInterval) && hasCallback == old(hasCallback)
    {
      if rembMin != min {
        rembMin := min;
        if hasCallback {
          notifications := notifications + [rembMin];
        }
      }
    }

    /**
     * Walks the table in an unspecified order, dropping stale entries and
     * tracking the running minimum and the oldest stamp of the others, then
     * stores both (the minimum through SetMin).
     */
    method CalcMin(defaultMin: UInt32, now: ClockTime)
      modifies this
      ensures RescanOutcome(old(rembTable), now, clearInterval, defaultMin, rembTable, rembMin, oldestRembTime)
      ensures notifications == Notify(old(rembMin), rembMin, old(notifications), hasCallback)
      ensures clearInterval == old(clearInterval) && hasCallback == old(hasCallback)
    {
      var t0 := rembTable;
      var remaining := t0.Keys;
      var running: UInt32 := 0;
      var oldest: ClockTime := CLOCK_TIME_NONE;
      ghost var order: seq<UInt32> := [];
      while remaining != {}
        invariant remaining <= t0.Keys
        invariant rembTable == Kept(t0, remaining, now, clearInterval)
        invariant Visited(order, t0, remaining, now, clearInterval)
        invariant running == ScanMin(BitratesOf(order, t0))
        invariant OldestOf(oldest, order, t0)
        invariant clearInterval == old(clearInterval) && hasCallback == old(hasCallback)
        invariant rembMin == old(rembMin) && notifications == old(notifications)
        decreases remaining
      {
        var k :| k in remaining;
        var v := t0[k];
        KeptStep(t0, remaining, k, now, clearInterval);
        if Stale(now, v.ts, clearInterval) {
          rembTable := rembTable - {k};
          VisitStale(order, t0, remaining, k, now, clearInterval);
        } else {
          VisitFresh(order, t0, remaining, k, now, clearInterval);
          OldestStep(oldest, order, t0, k);
          ScanMinAppend(BitratesOf(order, t0), v.bitrate);
          running := NextMin(running, v.bitrate);
          oldest := if v.ts < oldest then v.ts else oldest;
          order := order + [k];
        }
        remaining := remaining - {k};
      }
      ScanDone(order, t0, now, clearInterval, oldest);
      oldestRembTime := oldest;
      SetMin(WithDefault(running, defaultMin));
    }

    /**
     * Records a report of `bitrate` for `ssrc` at `now`. A bitrate below the
     * current minimum becomes the minimum at once; otherwise the table is
     * rescanned, with the bitrate as default, when the report is new or changed
     * and above the minimum, or when the oldest stamp has gone stale.
     */
    method UpdateMin(bitrate: UInt32, ssrc: UInt32, now: ClockTime)
      modifies this
      ensures var t1 := old(rembTable)[ssrc := RembValue(bitrate, now)];
              var newBr := ssrc !in old(rembTable) || old(rembTable)[ssrc].bitrate != bitrate;
              if bitrate < old(rembMin) then
                rembTable == t1 && rembMin == bitrate && oldestRembTime == old(oldestRembTime)
              else if (newBr && bitrate > old(rembMin)) || Stale(now, old(oldestRembTime), old(clearInterval)) then
                RescanOutcome(t1, now, clearInterval, bitrate, rembTable, rembMin, oldestRembTime)
              else
                rembTable == t1 && rembMin == old(rembMin) && oldestRembTime == old(oldestRembTime)
      ensures notifications == Notify(old(rembMin), rembMin, old(notifications), hasCallback)
      ensures clearInterval == old(clearInterval) && hasCallback == old(hasCallback)
    {
      var newBr := true;
      if ssrc in rembTable {
        newBr := bitrate != rembTable[ssrc].bitrate;
      }
      rembTable := rembTable[ssrc := RembValue(bitrate, now)];

      if bitrate < rembMin {
        SetMin(bitrate);
      } else {
        var calcMin := newBr && bitrate > rembMin;
        calcMin := calcMin || Stale(now, oldestRembTime, clearInterval);
        if calcMin {
          CalcMin(bitrate, now);
        }
      }
    }

    /**
     * The current minimum at `now`, after a rescan without default when the
     * oldest stamp has gone stale.
     */
    method GetMin(now: ClockTime) returns (ret: UInt32)
      modifies this
      ensures ret == rembMin
      ensures Stale(now, old(oldestRembTime), old(clearInterval)) ==>
                RescanOutcome(old(rembTable), now, clearInterval, 0, rembTable, rembMin, oldestRembTime)
      ensures !Stale(now, old(oldestRembTime), old(clearInterval)) ==>
                rembTable == old(rembTable) && rembMin == old(rembMin) && oldestRembTime == old(oldestRembTime)
      ensures notifications == Notify(old(rembMin), rembMin, old(notifications), hasCallback)
      ensures clearInterval == old(clearInterval) && hasCallback == old(hasCallback)
    {
      if Stale(now, oldestRembTime, clearInterval) {
        CalcMin(0, now);
      }
      ret := rembMin;
    }
  }
}
