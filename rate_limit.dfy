/** debounce(func, wait) and throttle(func, limit): wrappers that bound how often
    `func` runs. Each wrapper's closure holds one mutable variable (`timeout`,
    resp. `inThrottle`); the host's timers are an explicit queue over a virtual
    clock, and every run of `func` is logged with its time and arguments.

    Driving a wrapper with timestamped calls: before a call made at time t, the
    host fires the pending timer if it is due at or before t. */
module RateLimit {
  import opened Wrappers
  import opened Timers

  /** A call at a virtual time (ms) with its arguments; for throttle the
      arguments include the receiver `this`. Used both for calls of a wrapper
      and for runs of the wrapped func. */
  datatype Event<A> = Event(at: int, args: A)

  /** Calls arrive in time order. */
  ghost predicate Chronological<A>(calls: seq<Event<A>>)
  {
    forall i, j :: 0 <= i < j < |calls| ==> calls[i].at <= calls[j].at
  }

  /** No call is made before the clock's current time. */
  ghost predicate NotBefore<A>(now: int, calls: seq<Event<A>>)
  {
    calls != [] ==> now <= calls[0].at
  }

  /** The calls after the first are still in time order, and none comes
      before the first. */
  lemma ChronologicalTail<A>(calls: seq<Event<A>>)
    requires calls != [] && Chronological(calls)
    ensures Chronological(calls[1..]) && NotBefore(calls[0].at, calls[1..])
  {
  }

  // ---------------------------------------------------------------- debounce

  /** The state of one debounced wrapper: its `wait`, the clock, the closure's
      `timeout` handle (0 while it is still undefined), the next handle the host
      will issue, the pending timers (each carrying the arguments its `later`
      closure captured) and the log of func's runs. */
  datatype Debounce<A> = Debounce(wait: int, now: int, timeout: nat, nextHandle: nat,
                                  timers: seq<Timer<A>>, invoked: seq<Event<A>>)

  /** At most one timer is ever pending, and it is the one `timeout` names. */
  ghost predicate DebounceValid<A>(s: Debounce<A>)
  {
    && |s.timers| <= 1
    && 0 < s.nextHandle && s.timeout < s.nextHandle
    && (s.timers != [] ==> s.timers[0].handle == s.timeout && s.now <= s.timers[0].due)
  }

  /** debounce(func, wait) at time `now`: `timeout` is undefined, nothing pending. */
  function DebounceStart<A>(wait: int, now: int): Debounce<A>
  {
    Debounce(wait, now, 0, 1, [], [])
  }

  /** executedFunction(...args) at the current time: clearTimeout(timeout), then
      timeout = setTimeout(later, wait) with `later` capturing args. */
  function DebounceCall<A>(s: Debounce<A>, args: A): (r: Debounce<A>)
    ensures r.now == s.now && r.invoked == s.invoked && r.timeout == s.nextHandle
    ensures forall t :: t in r.timers && t.handle != s.nextHandle ==> t in s.timers && t.handle != s.timeout
    ensures Timer(s.nextHandle, s.now + Delay(s.wait), args) in r.timers
  {
    s.(timers := Cancel(s.timers, s.timeout) + [Timer(s.nextHandle, s.now + Delay(s.wait), args)],
       timeout := s.nextHandle,
       nextHandle := s.nextHandle + 1)
  }

  /** The host fires the first pending timer: `later` runs clearTimeout(timeout)
      and then func with the arguments it captured. */
  function DebounceFire<A>(s: Debounce<A>): (r: Debounce<A>)
    requires s.timers != []
    ensures r.now == s.timers[0].due
    ensures r.invoked == s.invoked + [Event(s.timers[0].due, s.timers[0].action)]
    ensures forall t :: t in r.timers ==> t in s.timers[1..] && t.handle != s.timeout
  {
    var t := s.timers[0];
    s.(now := t.due,
       timers := Cancel(s.timers[1..], s.timeout),
       invoked := s.invoked + [Event(t.due, t.action)])
  }

  /** The clock moves on to time t, firing the pending timer if it is due by then. */
  function DebounceAdvance<A>(s: Debounce<A>, t: int): Debounce<A>
  {
    (if s.timers != [] && s.timers[0].due <= t then DebounceFire(s) else s).(now := t)
  }

  /** Enough time passes for the pending timer, if any, to fire. */
  function DebounceSettle<A>(s: Debounce<A>): Debounce<A>
  {
    if s.timers == [] then s else DebounceFire(s)
  }

  /** The wrapper called at each of `calls`, in order. */
  function DebounceRun<A>(s: Debounce<A>, calls: seq<Event<A>>): Debounce<A>
    decreases |calls|
  {
    if calls == [] then s
    else DebounceRun(DebounceCall(DebounceAdvance(s, calls[0].at), calls[0].args), calls[1..])
  }

  /** The run of func that a timer pending in `s` contributes before the first of
      `calls`: it fires if it is due by then (or if no call follows). */
  function Flushed<A>(s: Debounce<A>, calls: seq<Event<A>>): seq<Event<A>>
  {
    if s.timers == [] then []
    else if calls == [] || s.timers[0].due <= calls[0].at then [Event(s.timers[0].due, s.timers[0].action)]
    else []
  }

  /** The pending timer is due at or before time t. */
  predicate DueBy<A>(s: Debounce<A>, t: int)
  {
    s.timers != [] && s.timers[0].due <= t
  }

  /** Call i is not followed by another call before its deadline `wait` later. */
  predicate Unfollowed<A>(wait: nat, calls: seq<Event<A>>, i: nat)
    requires i < |calls|
  {
    i == |calls| - 1 || calls[i].at + wait <= calls[i + 1].at
  }

  /** What debounce promises, stated without timers: func runs once for each
      call that no other call follows within `wait`, at that call's deadline and
      with that call's arguments. */
  function Quiet<A>(wait: nat, calls: seq<Event<A>>): seq<Event<A>>
  {
    if calls == [] then []
    else (if Unfollowed(wait, calls, 0) then [Event(calls[0].at + wait, calls[0].args)] else [])
         + Quiet(wait, calls[1..])
  }

  /** One call keeps the debounce invariant and leaves exactly its own timer pending. */
  lemma DebounceCallReplacesTimer<A>(s: Debounce<A>, args: A)
    requires DebounceValid(s)
    ensures DebounceValid(DebounceCall(s, args))
    ensures DebounceCall(s, args).timers == [Timer(s.nextHandle, s.now + Delay(s.wait), args)]
    ensures DebounceCall(s, args).invoked == s.invoked
  {
  }

  /** Moving the clock forward keeps the invariant; the pending timer fires,
      running func with its captured arguments, exactly when it is due by then. */
  lemma DebounceAdvanceFires<A>(s: Debounce<A>, t: int)
    requires DebounceValid(s) && s.now <= t
    ensures var r := DebounceAdvance(s, t);
            && DebounceValid(r) && r.now == t && r.wait == s.wait && r.nextHandle == s.nextHandle
            && r.timeout == s.timeout
            && r.invoked == s.invoked + (if DueBy(s, t) then [Event(s.timers[0].due, s.timers[0].action)] else [])
            && r.timers == if DueBy(s, t) then [] else s.timers
  {
  }

  /** Letting the pending timer fire runs func once with its captured arguments. */
  lemma DebounceSettleFlushes<A>(s: Debounce<A>)
    requires DebounceValid(s)
    ensures DebounceSettle(s).invoked == s.invoked + Flushed(s, [])
    ensures DebounceSettle(s).timers == []
  {
  }

  /** One call at time c.at: the pending timer fires first if it is due by
      then, and afterwards only the call's own timer is pending. */
  lemma DebounceCallStep<A>(s: Debounce<A>, c: Event<A>)
    requires DebounceValid(s) && s.now <= c.at
    ensures var s2 := DebounceCall(DebounceAdvance(s, c.at), c.args);
            && DebounceValid(s2) && s2.now == c.at && s2.wait == s.wait
            && s2.invoked == s.invoked + Flushed(s, [c])
            && |s2.timers| == 1 && s2.timers[0].due == c.at + Delay(s.wait) && s2.timers[0].action == c.args
  {
  }

  /** The timer a call leaves pending fires before the next call exactly when
      that call is unfollowed: it contributes Quiet's first run. */
  lemma FlushedAfterCall<A>(s: Debounce<A>, w: nat, calls: seq<Event<A>>)
    requires calls != [] && |s.timers| == 1
    requires s.timers[0].due == calls[0].at + w && s.timers[0].action == calls[0].args
    ensures Quiet(w, calls) == Flushed(s, calls[1..]) + Quiet(w, calls[1..])
  {
  }

  /** Operational trace against the reference: from any valid state, the runs
      of func once every timer has fired are the pending timer's (if it is due
      before the first call) followed by Quiet(wait, calls). */
  lemma {:induction false} DebounceRunIsQuiet<A>(s: Debounce<A>, calls: seq<Event<A>>)
    requires DebounceValid(s) && Chronological(calls) && NotBefore(s.now, calls)
    ensures DebounceValid(DebounceRun(s, calls))
    ensures DebounceSettle(DebounceRun(s, calls)).invoked == s.invoked + Flushed(s, calls) + Quiet(Delay(s.wait), calls)
    decreases |calls|
  {
    if calls == [] {
      DebounceSettleFlushes(s);
    } else {
      var w := Delay(s.wait);
      var c := calls[0];
      var rest := calls[1..];
      var s2 := DebounceCall(DebounceAdvance(s, c.at), c.args);
      DebounceCallStep(s, c);
      assert Flushed(s, [c]) == Flushed(s, calls);
      ChronologicalTail(calls);
      DebounceRunIsQuiet(s2, rest);
      FlushedAfterCall(s2, w, calls);
      var f, head := Flushed(s, calls), Flushed(s2, rest);
      calc {
        DebounceSettle(DebounceRun(s, calls)).invoked;
        DebounceSettle(DebounceRun(s2, rest)).invoked;
        (s.invoked + f) + head + Quiet(w, rest);
        { ConcatAssoc(s.invoked + f, head, Quiet(w, rest)); }
        (s.invoked + f) + (head + Quiet(w, rest));
        s.invoked + f + Quiet(w, calls);
      }
    }
  }

  /** A fresh debounced wrapper, called at `calls` and then left alone, runs
      func exactly as Quiet describes. */
  lemma DebounceFromStart<A>(wait: int, start: int, calls: seq<Event<A>>)
    requires Chronological(calls) && NotBefore(start, calls)
    ensures DebounceSettle(DebounceRun(DebounceStart(wait, start), calls)).invoked == Quiet(Delay(wait), calls)
  {
    var s := DebounceStart<A>(wait, start);
    DebounceRunIsQuiet(s, calls);
    assert s.invoked + Flushed(s, calls) == [];
  }

  /** Each run of func belongs to a call that was not followed within `wait`,
      and happens at that call's deadline with that call's arguments. */
  lemma {:induction false} QuietOnlyUnfollowed<A>(wait: nat, calls: seq<Event<A>>, e: Event<A>)
    requires e in Quiet(wait, calls)
    ensures exists i :: 0 <= i < |calls| && Unfollowed(wait, calls, i) && e == Event(calls[i].at + wait, calls[i].args)
  {
    if e == Event(calls[0].at + wait, calls[0].args) && Unfollowed(wait, calls, 0) {
    } else {
      QuietOnlyUnfollowed(wait, calls[1..], e);
      var i :| 0 <= i < |calls[1..]| && Unfollowed(wait, calls[1..], i) && e == Event(calls[1..][i].at + wait, calls[1..][i].args);
      assert Unfollowed(wait, calls, i + 1);
    }
  }

  /** Every call not followed within `wait` does run func. */
  lemma {:induction false} QuietAllUnfollowed<A>(wait: nat, calls: seq<Event<A>>, i: nat)
    requires i < |calls| && Unfollowed(wait, calls, i)
    ensures Event(calls[i].at + wait, calls[i].args) in Quiet(wait, calls)
  {
    if i > 0 {
      assert Unfollowed(wait, calls[1..], i - 1);
      QuietAllUnfollowed(wait, calls[1..], i - 1);
    }
  }

  /** The last call always runs, and its run is the last: the last call's
      arguments win. */
  lemma {:induction false} QuietLastCallWins<A>(wait: nat, calls: seq<Event<A>>)
    requires calls != []
    ensures Quiet(wait, calls) != []
    ensures Quiet(wait, calls)[|Quiet(wait, calls)| - 1] == Event(calls[|calls| - 1].at + wait, calls[|calls| - 1].args)
  {
    if |calls| > 1 {
      QuietLastCallWins(wait, calls[1..]);
    }
  }

  /** A burst (every call followed by the next within `wait`) runs func exactly
      once, `wait` after the last call, with the last call's arguments. */
  lemma {:induction false} QuietBurstRunsOnce<A>(wait: nat, calls: seq<Event<A>>)
    requires calls != []
    requires forall i :: 0 <= i < |calls| - 1 ==> calls[i + 1].at < calls[i].at + wait
    ensures Quiet(wait, calls) == [Event(calls[|calls| - 1].at + wait, calls[|calls| - 1].args)]
  {
    if |calls| > 1 {
      QuietBurstRunsOnce(wait, calls[1..]);
    }
  }

  /** Calls at 0, 10 and 20 ms with wait = 50 ms run func once, at 70 ms, with
      the arguments of the call at 20 ms. */
  lemma DebounceBurstExample<A>(a: A, b: A, c: A)
    ensures DebounceSettle(DebounceRun(DebounceStart(50, 0), [Event(0, a), Event(10, b), Event(20, c)])).invoked
         == [Event(70, c)]
  {
    var calls := [Event(0, a), Event(10, b), Event(20, c)];
    DebounceFromStart(50, 0, calls);
    QuietBurstRunsOnce(50, calls);
  }

  /** A debounced wrapper as the closure keeps it, driven on a virtual clock. */
  class Debouncer<A> {
    const wait: int
    var now: int
    var timeout: nat
    var nextHandle: nat
    var timers: seq<Timer<A>>
    var invoked: seq<Event<A>>

    ghost function State(): Debounce<A>
      reads this
    {
      Debounce(wait, now, timeout, nextHandle, timers, invoked)
    }

    ghost predicate Valid()
      reads this
    {
      DebounceValid(State())
    }

    /** debounce(func, wait), evaluated at virtual time `start`. */
    constructor (wait: int, start: int)
      ensures Valid() && State() == DebounceStart(wait, start)
    {
      this.wait := wait;
      now := start;
      timeout := 0;
      nextHandle := 1;
      timers := [];
      invoked := [];
    }

    /** executedFunction(...args) at the current time. */
    method Call(args: A)
      requires Valid()
      modifies this
      ensures Valid() && State() == DebounceCall(old(State()), args)
      ensures timers == [Timer(old(nextHandle), now + Delay(wait), args)] && timeout == old(nextHandle)
      ensures now == old(now) && invoked == old(invoked)
    {
      DebounceCallReplacesTimer(State(), args);
      timers := Cancel(timers, timeout);
      timers := timers + [Timer(nextHandle, now + Delay(wait), args)];
      timeout := nextHandle;
      nextHandle := nextHandle + 1;
    }

    /** The host fires the pending timer at its due time. */
    method Fire()
      requires Valid() && timers != []
      modifies this
      ensures Valid() && State() == DebounceFire(old(State()))
      ensures invoked == old(invoked) + [Event(old(timers[0]).due, old(timers[0]).action)]
      ensures timers == [] && now == old(timers[0]).due
    {
      var t := timers[0];
      timers := timers[1..];
      now := t.due;
      timers := Cancel(timers, timeout);
      invoked := invoked + [Event(t.due, t.action)];
    }

    /** The clock moves on to time t, firing the pending timer if it is due by then. */
    method AdvanceTo(t: int)
      requires Valid() && now <= t
      modifies this
      ensures Valid() && State() == DebounceAdvance(old(State()), t)
      ensures now == t
    {
      if timers != [] && timers[0].due <= t {
        Fire();
      }
      now := t;
    }
  }

  // ---------------------------------------------------------------- throttle

  /** The state of one throttled wrapper: its `limit`, the clock, the closure's
      `inThrottle` flag (undefined, i.e. falsy, at first), the next timer
      handle, the pending reset timers and the log of func's runs. */
  datatype Throttle<A> = Throttle(limit: int, now: int, inThrottle: bool, nextHandle: nat,
                                  timers: seq<Timer<()>>, invoked: seq<Event<A>>)

  /** `inThrottle` is set exactly while its reset timer is pending. */
  ghost predicate ThrottleValid<A>(s: Throttle<A>)
  {
    && |s.timers| <= 1
    && (s.inThrottle <==> s.timers != [])
    && (s.timers != [] ==> s.now <= s.timers[0].due && s.timers[0].handle < s.nextHandle)
  }

  /** throttle(func, limit) at time `now`. */
  function ThrottleStart<A>(limit: int, now: int): Throttle<A>
  {
    Throttle(limit, now, false, 1, [], [])
  }

  /** The wrapper called at the current time with `args` (receiver included):
      func runs now unless `inThrottle` is set; a run sets `inThrottle` and
      schedules its reset `limit` ms later. A call during the cooldown is dropped. */
  function ThrottleCall<A>(s: Throttle<A>, args: A): (r: Throttle<A>)
    ensures r.now == s.now && r.limit == s.limit && r.inThrottle
    ensures s.inThrottle ==> r == s
    ensures !s.inThrottle ==>
              && r.invoked == s.invoked + [Event(s.now, args)]
              && |r.timers| == |s.timers| + 1 && r.timers[..|s.timers|] == s.timers
              && r.timers[|s.timers|].due == s.now + Delay(s.limit)
  {
    if s.inThrottle then s
    else s.(invoked := s.invoked + [Event(s.now, args)],
            inThrottle := true,
            timers := s.timers + [Timer(s.nextHandle, s.now + Delay(s.limit), ())],
            nextHandle := s.nextHandle + 1)
  }

  /** The host fires the reset timer: `inThrottle = false`. */
  function ThrottleFire<A>(s: Throttle<A>): (r: Throttle<A>)
    requires s.timers != []
    ensures !r.inThrottle && r.invoked == s.invoked
    ensures r.now == s.timers[0].due && r.timers == s.timers[1..]
  {
    s.(now := s.timers[0].due, inThrottle := false, timers := s.timers[1..])
  }

  /** The clock moves on to time t, firing the reset timer if it is due by then. */
  function ThrottleAdvance<A>(s: Throttle<A>, t: int): Throttle<A>
  {
    (if s.timers != [] && s.timers[0].due <= t then ThrottleFire(s) else s).(now := t)
  }

  /** The wrapper called at each of `calls`, in order. */
  function ThrottleRun<A>(s: Throttle<A>, calls: seq<Event<A>>): Throttle<A>
    decreases |calls|
  {
    if calls == [] then s
    else ThrottleRun(ThrottleCall(ThrottleAdvance(s, calls[0].at), calls[0].args), calls[1..])
  }

  /** When the cooldown in force in `s` ends, if one is. */
  function Cooldown<A>(s: Throttle<A>): Option<int>
  {
    if s.timers == [] then None else Some(s.timers[0].due)
  }

  /** What throttle lets through, stated without timers or flags: a call runs
      iff no cooldown is in force at its time, and each run opens a cooldown
      ending `limit` later. */
  function Admitted<A>(limit: nat, until: Option<int>, calls: seq<Event<A>>): seq<Event<A>>
    decreases |calls|
  {
    if calls == [] then []
    else if until.None? || until.value <= calls[0].at then
      [calls[0]] + Admitted(limit, Some(calls[0].at + limit), calls[1..])
    else Admitted(limit, until, calls[1..])
  }

  /** One call at time c.at: the reset timer fires first if it is due by then;
      the call runs func iff no cooldown is then in force, and a run opens a
      cooldown ending `limit` later. */
  lemma ThrottleCallStep<A>(s: Throttle<A>, c: Event<A>)
    requires ThrottleValid(s) && s.now <= c.at
    ensures var s2 := ThrottleCall(ThrottleAdvance(s, c.at), c.args);
            && ThrottleValid(s2) && s2.now == c.at && s2.limit == s.limit
            && if Cooldown(s).None? || Cooldown(s).value <= c.at
               then s2.invoked == s.invoked + [c] && Cooldown(s2) == Some(c.at + Delay(s.limit))
               else s2.invoked == s.invoked && Cooldown(s2) == Cooldown(s)
  {
  }

  /** The wrapper keeps its invariant along any sequence of calls. */
  lemma {:induction false} ThrottleRunKeepsValid<A>(s: Throttle<A>, calls: seq<Event<A>>)
    requires ThrottleValid(s) && Chronological(calls) && NotBefore(s.now, calls)
    ensures ThrottleValid(ThrottleRun(s, calls))
    decreases |calls|
  {
    if calls != [] {
      var c := calls[0];
      ThrottleCallStep(s, c);
      ChronologicalTail(calls);
      ThrottleRunKeepsValid(ThrottleCall(ThrottleAdvance(s, c.at), c.args), calls[1..]);
    }
  }

  /** Operational trace against the reference: the wrapper runs func for
      exactly the calls Admitted lets through. */
  lemma {:induction false} ThrottleRunIsAdmitted<A>(s: Throttle<A>, calls: seq<Event<A>>)
    requires ThrottleValid(s) && Chronological(calls) && NotBefore(s.now, calls)
    ensures ThrottleRun(s, calls).invoked == s.invoked + Admitted(Delay(s.limit), Cooldown(s), calls)
    decreases |calls|
  {
    if calls != [] {
      var c, rest, l := calls[0], calls[1..], Delay(s.limit);
      var s2 := ThrottleCall(ThrottleAdvance(s, c.at), c.args);
      ThrottleCallStep(s, c);
      ChronologicalTail(calls);
      ThrottleRunIsAdmitted(s2, rest);
      AdmittedStep(l, Cooldown(s), Cooldown(s2), calls);
      var head := if Cooldown(s).None? || Cooldown(s).value <= c.at then [c] else [];
      var tail := Admitted(l, Cooldown(s2), rest);
      calc {
        ThrottleRun(s, calls).invoked;
        ThrottleRun(s2, rest).invoked;
        s2.invoked + tail;
        (s.invoked + head) + tail;
        { ConcatAssoc(s.invoked, head, tail); }
        s.invoked + (head + tail);
        s.invoked + Admitted(l, Cooldown(s), calls);
      }
    }
  }

  /** Concatenating logs is associative. */
  lemma ConcatAssoc<T>(a: seq<T>, b: seq<T>, c: seq<T>)
    ensures (a + b) + c == a + (b + c)
  {
  }

  /** Admitted's first step, as ThrottleCallStep leaves the cooldown. */
  lemma AdmittedStep<A>(l: nat, until: Option<int>, next: Option<int>, calls: seq<Event<A>>)
    requires calls != []
    requires until.None? || until.value <= calls[0].at ==> next == Some(calls[0].at + l)
    requires !(until.None? || until.value <= calls[0].at) ==> next == until
    ensures Admitted(l, until, calls)
         == (if until.None? || until.value <= calls[0].at then [calls[0]] else []) + Admitted(l, next, calls[1..])
  {
  }

  /** Only calls run func: every run is one of the calls, at its own time and
      with its own arguments. */
  lemma {:induction false} AdmittedAreCalls<A>(limit: nat, until: Option<int>, calls: seq<Event<A>>)
    ensures forall e :: e in Admitted(limit, until, calls) ==> e in calls
    decreases |calls|
  {
    if calls != [] {
      AdmittedAreCalls(limit, Some(calls[0].at + limit), calls[1..]);
      AdmittedAreCalls(limit, until, calls[1..]);
    }
  }

  /** Successive runs are at least `limit` apart. */
  ghost predicate Spaced<A>(limit: nat, runs: seq<Event<A>>)
  {
    forall i, j :: 0 <= i < j < |runs| ==> runs[i].at + limit <= runs[j].at
  }

  /** Runs respect the cooldown in force and are at least `limit` apart. */
  lemma {:induction false} AdmittedSpaced<A>(limit: nat, until: Option<int>, calls: seq<Event<A>>)
    requires Chronological(calls)
    ensures until.Some? ==> forall e :: e in Admitted(limit, until, calls) ==> until.value <= e.at
    ensures Spaced(limit, Admitted(limit, until, calls))
    decreases |calls|
  {
    if calls != [] {
      var c := calls[0];
      assert Chronological(calls[1..]);
      if until.None? || until.value <= c.at {
        var rest := Admitted(limit, Some(c.at + limit), calls[1..]);
        AdmittedSpaced(limit, Some(c.at + limit), calls[1..]);
        var r := [c] + rest;
        forall i, j | 0 <= i < j < |r| ensures r[i].at + limit <= r[j].at {
          if i == 0 {
            assert rest[j - 1] in rest;
          } else {
            assert r[i] == rest[i - 1] && r[j] == rest[j - 1];
          }
        }
      } else {
        AdmittedSpaced(limit, until, calls[1..]);
      }
    }
  }

  /** A call is dropped only while a cooldown is in force: the one in force at
      the start, or one opened by an earlier run. */
  lemma {:induction false} AdmittedDropsOnlyInCooldown<A>(limit: nat, until: Option<int>, calls: seq<Event<A>>, i: nat)
    requires Chronological(calls) && i < |calls|
    ensures var r := Admitted(limit, until, calls);
            || calls[i] in r
            || (until.Some? && calls[i].at < until.value)
            || exists e :: e in r && e.at <= calls[i].at < e.at + limit
    decreases |calls|
  {
    var c := calls[0];
    assert Chronological(calls[1..]);
    if until.None? || until.value <= c.at {
      if i > 0 {
        AdmittedDropsOnlyInCooldown(limit, Some(c.at + limit), calls[1..], i - 1);
        assert calls[1..][i - 1] == calls[i];
        assert c.at <= calls[i].at;
      }
    } else if i > 0 {
      AdmittedDropsOnlyInCooldown(limit, until, calls[1..], i - 1);
      assert calls[1..][i - 1] == calls[i];
    }
  }

  /** With no cooldown in force at first: the first call runs, every run is
      one of the calls, runs are at least `limit` apart, and a call is dropped
      only when it comes less than `limit` after a run. */
  lemma AdmittedFromIdle<A>(l: nat, calls: seq<Event<A>>)
    requires Chronological(calls)
    ensures var r := Admitted(l, None, calls);
            && (calls != [] ==> r != [] && r[0] == calls[0])
            && (forall e :: e in r ==> e in calls)
            && Spaced(l, r)
            && (forall i :: 0 <= i < |calls| ==>
                  calls[i] in r || exists e :: e in r && e.at <= calls[i].at < e.at + l)
  {
    var r := Admitted(l, None, calls);
    AdmittedAreCalls(l, None, calls);
    AdmittedSpaced(l, None, calls);
    forall i | 0 <= i < |calls|
      ensures calls[i] in r || exists e :: e in r && e.at <= calls[i].at < e.at + l
    {
      AdmittedDropsOnlyInCooldown(l, None, calls, i);
    }
  }

  /** A fresh throttled wrapper runs func for exactly the calls Admitted lets
      through with no cooldown in force at first. */
  lemma ThrottleFromStart<A>(limit: int, start: int, calls: seq<Event<A>>)
    requires Chronological(calls) && NotBefore(start, calls)
    ensures ThrottleRun(ThrottleStart(limit, start), calls).invoked == Admitted(Delay(limit), None, calls)
  {
    ThrottleRunIsAdmitted(ThrottleStart<A>(limit, start), calls);
  }

  /** Calls at 0, 10 and 60 ms with limit = 50 ms run func at 0 and 60 ms; the
      call at 10 ms is dropped. */
  lemma ThrottleWindowExample<A>(a: A, b: A, c: A)
    ensures ThrottleRun(ThrottleStart(50, 0), [Event(0, a), Event(10, b), Event(60, c)]).invoked
         == [Event(0, a), Event(60, c)]
  {
    var calls := [Event(0, a), Event(10, b), Event(60, c)];
    ThrottleRunIsAdmitted(ThrottleStart<A>(50, 0), calls);
    assert calls[1..] == [Event(10, b), Event(60, c)] && calls[1..][1..] == [Event(60, c)];
    assert Chronological(calls);
    assert Admitted(50, Some(110), calls[1..][1..][1..]) == [];
    assert Admitted(50, Some(50), calls[1..][1..]) == [Event(60, c)];
    assert Admitted(50, Some(50), calls[1..]) == [Event(60, c)];
    assert Admitted(50, None, calls) == [Event(0, a), Event(60, c)];
  }

  /** A throttled wrapper as the closure keeps it, driven on a virtual clock. */
  class Throttler<A> {
    const limit: int
    var now: int
    var inThrottle: bool
    var nextHandle: nat
    var timers: seq<Timer<()>>
    var invoked: seq<Event<A>>

    ghost function State(): Throttle<A>
      reads this
    {
      Throttle(limit, now, inThrottle, nextHandle, timers, invoked)
    }

    ghost predicate Valid()
      reads this
    {
      ThrottleValid(State())
    }

    /** throttle(func, limit), evaluated at virtual time `start`. */
    constructor (limit: int, start: int)
      ensures Valid() && State() == ThrottleStart(limit, start)
    {
      this.limit := limit;
      now := start;
      inThrottle := false;
      nextHandle := 1;
      timers := [];
      invoked := [];
    }

    /** The wrapper called at the current time with `args` (receiver included). */
    method Call(args: A)
      requires Valid()
      modifies this
      ensures Valid() && State() == ThrottleCall(old(State()), args)
      ensures old(inThrottle) ==> invoked == old(invoked) && timers == old(timers)
      ensures !old(inThrottle) ==>
                invoked == old(invoked) + [Event(now, args)] && timers == [Timer(old(nextHandle), now + Delay(limit), ())]
      ensures inThrottle && now == old(now)
    {
      if !inThrottle {
        invoked := invoked + [Event(now, args)];
        inThrottle := true;
        timers := timers + [Timer(nextHandle, now + Delay(limit), ())];
        nextHandle := nextHandle + 1;
      }
    }

    /** The host fires the reset timer at its due time. */
    method Fire()
      requires Valid() && timers != []
      modifies this
      ensures Valid() && State() == ThrottleFire(old(State()))
      ensures !inThrottle && timers == [] && now == old(timers[0]).due && invoked == old(invoked)
    {
      now := timers[0].due;
      timers := timers[1..];
      inThrottle := false;
    }

    /** The clock moves on to time t, firing the reset timer if it is due by then. */
    method AdvanceTo(t: int)
      requires Valid() && now <= t
      modifies this
      ensures Valid() && State() == ThrottleAdvance(old(State()), t)
      ensures now == t
    {
      if timers != [] && timers[0].due <= t {
        Fire();
      }
      now := t;
    }
  }
}
