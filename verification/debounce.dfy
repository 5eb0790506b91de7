/**
 * The file-system watcher debounce: a one-shot `System.Timers.Timer` of 400 ms
 * (AutoReset off) that qualifying watcher events re-arm by stopping and
 * starting it, and whose expiry triggers one catalog reload.  Time advances in
 * ticks of one millisecond.
 */
module Debounce {
  import opened Wrappers
  import opened Paths
  import opened Extensions

  /** Delay of the reload timer, in milliseconds. */
  const ReloadDelay: nat := 400

  /** The kinds of change a `FileSystemWatcher` reports. */
  datatype ChangeType = Created | Deleted | Changed | Renamed

  /**
   * OnFsChanged's test: the path has an extension and it is launchable, or
   * the event is a rename.
   */
  predicate Qualifies(exts: set<string>, path: string, kind: ChangeType)
    ensures Qualifies(exts, path, kind) <==>
      IsLaunchable(exts, path) || (kind == Renamed && GetExtension(path) != "")
  {
    var ext := GetExtension(path);
    ext != "" && (HasExtension(exts, ext) || kind == Renamed)
  }

  /** A qualifying event is a change to a launchable file or a rename of a file that has an extension. */
  lemma QualifiesIff(exts: set<string>, path: string, kind: ChangeType)
    ensures Qualifies(exts, path, kind) <==>
      IsLaunchable(exts, path) || (kind == Renamed && GetExtension(path) != "")
    ensures GetExtension(path) == "" ==> !Qualifies(exts, path, kind)
  {
  }

  /** The observable state of the timer: whether it is counting, and the milliseconds left. */
  datatype TimerState = TimerState(enabled: bool, remaining: nat)

  /** A timer that is not counting. */
  const Idle := TimerState(false, 0)

  /** `Stop()`: the timer stops counting. */
  function Stopped(t: TimerState): TimerState
  {
    t.(enabled := false)
  }

  /** `Start()`: a stopped timer starts a full interval; a running one is left as it is. */
  function Started(t: TimerState, interval: nat): TimerState
  {
    if t.enabled then t else TimerState(true, interval)
  }

  /** Stop followed by Start: what a qualifying event does. */
  function Rearmed(t: TimerState, interval: nat): TimerState
  {
    Started(Stopped(t), interval)
  }

  /** Start alone would not push the deadline back; Stop then Start always restarts the full interval. */
  lemma RestartNeedsStop(t: TimerState, interval: nat)
    ensures t.enabled ==> Started(t, interval) == t
    ensures Rearmed(t, interval) == TimerState(true, interval)
  {
  }

  /** One millisecond passes; the result says whether the Elapsed event was raised. */
  function Ticked(t: TimerState): (TimerState, bool)
  {
    if !t.enabled then (t, false)
    else if t.remaining <= 1 then (Idle, true)
    else (TimerState(true, t.remaining - 1), false)
  }

  /** What the window sees: a watcher event (already classified) or one millisecond passing. */
  datatype Step = FsEvent(qualifies: bool) | Tick

  /** One step, and the number of reloads it triggers. */
  function StepOnce(t: TimerState, s: Step, interval: nat): (TimerState, nat)
  {
    match s
    case FsEvent(q) => (if q then Rearmed(t, interval) else t, 0)
    case Tick => var (t', elapsed) := Ticked(t); (t', if elapsed then 1 else 0)
  }

  /** A whole trace: the final timer state and the number of reloads triggered on the way. */
  function Run(t: TimerState, steps: seq<Step>, interval: nat): (r: (TimerState, nat))
    ensures r.1 <= |steps|
    decreases |steps|
  {
    if steps == [] then (t, 0)
    else
      var (t1, n1) := Run(t, steps[..|steps| - 1], interval);
      var (t2, n2) := StepOnce(t1, steps[|steps| - 1], interval);
      (t2, n1 + n2)
  }

  /** `k` milliseconds without events. */
  function Ticks(k: nat): (s: seq<Step>)
    ensures |s| == k && forall i :: 0 <= i < k ==> s[i] == Tick
  {
    seq(k, _ => Tick)
  }

  lemma TicksSplit(a: nat, b: nat)
    ensures Ticks(a + b) == Ticks(a) + Ticks(b)
  {
  }

  /** Running two traces one after the other is running their concatenation. */
  lemma {:induction false} RunConcat(t: TimerState, a: seq<Step>, b: seq<Step>, interval: nat)
    ensures Run(t, a + b, interval) ==
      var (t1, n1) := Run(t, a, interval);
      var (t2, n2) := Run(t1, b, interval);
      (t2, n1 + n2)
    decreases |b|
  {
    if b != [] {
      var b' := b[..|b| - 1];
      assert (a + b)[..|a + b| - 1] == a + b';
      RunConcat(t, a, b', interval);
    } else {
      assert a + b == a;
    }
  }

  /** A non-qualifying event changes nothing. */
  lemma NonQualifyingIgnored(t: TimerState, interval: nat)
    ensures Run(t, [FsEvent(false)], interval) == (t, 0)
  {
    assert [FsEvent(false)][..0] == [];
  }

  /** A running timer counts down silently while time is left. */
  lemma {:induction false} CountDown(r: nat, k: nat, interval: nat)
    requires k < r
    ensures Run(TimerState(true, r), Ticks(k), interval) == (TimerState(true, r - k), 0)
  {
    if k > 0 {
      assert Ticks(k)[..k - 1] == Ticks(k - 1);
      CountDown(r, k - 1, interval);
    }
  }

  /** A running timer raises Elapsed exactly once when its time is up, and stops. */
  lemma Expire(r: nat, interval: nat)
    requires r > 0
    ensures Run(TimerState(true, r), Ticks(r), interval) == (Idle, 1)
  {
    assert Ticks(r)[..r - 1] == Ticks(r - 1);
    CountDown(r, r - 1, interval);
  }

  /** A stopped timer never fires, however long nothing happens. */
  lemma {:induction false} IdleStaysIdle(t: TimerState, k: nat, interval: nat)
    requires !t.enabled
    ensures Run(t, Ticks(k), interval) == (t, 0)
  {
    if k > 0 {
      assert Ticks(k)[..k - 1] == Ticks(k - 1);
      IdleStaysIdle(t, k - 1, interval);
    }
  }

  /** A qualifying event followed by fewer than `interval` quiet milliseconds triggers no reload yet. */
  lemma NoReloadBeforeQuiet(t: TimerState, k: nat, interval: nat)
    requires k < interval
    ensures Run(t, [FsEvent(true)] + Ticks(k), interval) == (TimerState(true, interval - k), 0)
  {
    RunConcat(t, [FsEvent(true)], Ticks(k), interval);
    assert [FsEvent(true)][..0] == [];
    CountDown(interval, k, interval);
  }

  /** A qualifying event followed by at least `interval` quiet milliseconds triggers exactly one reload. */
  lemma QuietWindowReloadsOnce(t: TimerState, k: nat, interval: nat)
    requires 0 < interval <= k
    ensures Run(t, [FsEvent(true)] + Ticks(k), interval) == (Idle, 1)
  {
    var e := [FsEvent(true)];
    TicksSplit(interval, k - interval);
    assert e + Ticks(k) == (e + Ticks(interval)) + Ticks(k - interval);
    RunConcat(t, e + Ticks(interval), Ticks(k - interval), interval);
    RunConcat(t, e, Ticks(interval), interval);
    assert e[..0] == [];
    Expire(interval, interval);
    IdleStaysIdle(Idle, k - interval, interval);
  }

  /** Milliseconds since the last qualifying event, or None when there was none. */
  function QuietTime(steps: seq<Step>): Option<nat>
    decreases |steps|
  {
    if steps == [] then None
    else
      var before := QuietTime(steps[..|steps| - 1]);
      match steps[|steps| - 1]
      case FsEvent(q) => if q then Some(0) else before
      case Tick => if before.Some? then Some(before.value + 1) else None
  }

  /**
   * A burst: it opens with a qualifying event and, at every point, the last
   * qualifying event is less than `interval` milliseconds old.
   */
  predicate Burst(steps: seq<Step>, interval: nat)
  {
    forall k :: 1 <= k <= |steps| ==>
      QuietTime(steps[..k]).Some? && QuietTime(steps[..k]).value < interval
  }

  /** During a burst no reload happens, and the timer is due `interval` after the last qualifying event. */
  lemma {:induction false} NoReloadDuringBurst(t: TimerState, steps: seq<Step>, interval: nat)
    requires steps != [] && Burst(steps, interval)
    ensures QuietTime(steps).Some? && QuietTime(steps).value < interval
    ensures Run(t, steps, interval) == (TimerState(true, interval - QuietTime(steps).value), 0)
    decreases |steps|
  {
    assert steps[..|steps|] == steps;
    var p := steps[..|steps| - 1];
    if p == [] {
      assert QuietTime(steps[..1]).Some?;
      assert steps[..1] == steps;
    } else {
      assert Burst(p, interval) by {
        forall k | 1 <= k <= |p| ensures QuietTime(p[..k]).Some? && QuietTime(p[..k]).value < interval {
          assert p[..k] == steps[..k];
        }
      }
      NoReloadDuringBurst(t, p, interval);
    }
  }

  /** However long a burst lasts, it ends in exactly one reload once `interval` quiet milliseconds have passed. */
  lemma BurstReloadsOnce(t: TimerState, steps: seq<Step>, interval: nat)
    requires steps != [] && Burst(steps, interval)
    ensures Run(t, steps + Ticks(interval), interval) == (Idle, 1)
  {
    NoReloadDuringBurst(t, steps, interval);
    var r := interval - QuietTime(steps).value;
    RunConcat(t, steps, Ticks(interval), interval);
    TicksSplit(r, interval - r);
    RunConcat(TimerState(true, r), Ticks(r), Ticks(interval - r), interval);
    Expire(r, interval);
    IdleStaysIdle(Idle, interval - r, interval);
  }

  /** The `_debounceTimer` object. */
  class DebounceTimer {
    const interval: nat
    var enabled: bool
    var remaining: nat

    function State(): TimerState
      reads this
    {
      TimerState(enabled, remaining)
    }

    /** `new Timer(interval) { AutoReset = false }`: created stopped. */
    constructor (interval: nat)
      requires interval > 0
      ensures this.interval == interval && State() == Idle
    {
      this.interval := interval;
      enabled := false;
      remaining := 0;
    }

    method Stop()
      modifies this
      ensures State() == Stopped(old(State()))
    {
      enabled := false;
    }

    method Start()
      modifies this
      ensures State() == Started(old(State()), interval)
    {
      if !enabled {
        enabled := true;
        remaining := interval;
      }
    }

    /** One millisecond passes; `elapsed` tells whether the Elapsed event is raised. */
    method Tick() returns (elapsed: bool)
      modifies this
      ensures (State(), elapsed) == Ticked(old(State()))
    {
      elapsed := false;
      if enabled {
        if remaining <= 1 {
          enabled := false;
          remaining := 0;
          elapsed := true;
        } else {
          remaining := remaining - 1;
        }
      }
    }
  }
}
