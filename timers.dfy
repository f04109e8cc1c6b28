/** The host's timer facility (setTimeout / clearTimeout) over a virtual clock.
    Pending timers are kept in the order they were scheduled; the host fires the
    one with the smallest due time first, and among equal due times the one
    scheduled first. */
module Timers {

  /** One pending timer: the handle setTimeout returned, the virtual time (ms)
      at which it fires, and what its callback does. */
  datatype Timer<E> = Timer(handle: nat, due: int, action: E)

  /** 2^31 and 2^32: setTimeout's delay is a WebIDL `long`. */
  const TwoTo31: int := 0x8000_0000
  const TwoTo32: int := 0x1_0000_0000

  /** The delay setTimeout waits: the argument is converted to a signed
      32-bit integer (wrapping modulo 2^32), and a negative result counts as
      zero. A delay in the 32-bit range is kept, a negative one in that range
      becomes zero, and any other differs from the argument by a multiple of
      2^32 unless it is zero. */
  function Delay(ms: int): (r: nat)
    ensures r < TwoTo31
    ensures 0 <= ms < TwoTo31 ==> r == ms
    ensures -TwoTo31 <= ms < 0 ==> r == 0
    ensures r == 0 || (ms - r) % TwoTo32 == 0
  {
    var w := ms % TwoTo32;
    if w < TwoTo31 then w else 0
  }

  /** A delay of 2^31 ms fires at once, and one of 2^32 + 5 ms after 5 ms. */
  lemma DelayWraps()
    ensures Delay(TwoTo31) == 0
    ensures Delay(TwoTo32 + 5) == 5
    ensures Delay(-1) == 0
  {
  }

  /** clearTimeout(h): the timer with handle h no longer fires; a handle that is
      not pending (already fired, never issued, or undefined) is ignored. */
  function Cancel<E>(q: seq<Timer<E>>, h: nat): (r: seq<Timer<E>>)
    ensures forall t :: t in r ==> t in q && t.handle != h
    ensures forall t :: t in q && t.handle != h ==> t in r
    ensures (forall t :: t in q ==> t.handle != h) ==> r == q
    ensures |r| <= |q|
  {
    if q == [] then []
    else (if q[0].handle == h then [] else [q[0]]) + Cancel(q[1..], h)
  }

  /** The index of the timer the host fires next: the earliest due time, and the
      first scheduled among timers due at that time. */
  function Earliest<E>(q: seq<Timer<E>>): (k: nat)
    requires q != []
    ensures k < |q|
    ensures forall i :: 0 <= i < |q| ==> q[k].due <= q[i].due
    ensures forall i :: 0 <= i < k ==> q[k].due < q[i].due
  {
    if |q| == 1 then 0
    else
      var j := Earliest(q[1..]);
      if q[0].due <= q[1 + j].due then 0 else 1 + j
  }

  /** The queue once the timer at index k has been taken out to run. */
  function RemoveAt<E>(q: seq<Timer<E>>, k: nat): (r: seq<Timer<E>>)
    requires k < |q|
    ensures |r| == |q| - 1
    ensures forall i :: 0 <= i < k ==> r[i] == q[i]
    ensures forall i :: k <= i < |r| ==> r[i] == q[i + 1]
  {
    q[..k] + q[k + 1..]
  }

  /** Every pending timer is due no earlier than `now`: the clock never has to
      run backwards to fire one. */
  ghost predicate NotOverdue<E>(q: seq<Timer<E>>, now: int)
  {
    forall t :: t in q ==> now <= t.due
  }

  /** Every pending timer carries a handle issued before `next`. */
  ghost predicate HandlesBelow<E>(q: seq<Timer<E>>, next: nat)
  {
    forall t :: t in q ==> t.handle < next
  }

  /** Taking out the timer that fires next leaves none due before it. */
  lemma EarliestLeavesNoneOverdue<E>(q: seq<Timer<E>>)
    requires q != []
    ensures NotOverdue(RemoveAt(q, Earliest(q)), q[Earliest(q)].due)
  {
  }
}
