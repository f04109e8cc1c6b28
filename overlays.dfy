/** Transient overlays on document.body: tooltips (initTooltips' mouseenter and
    mouseleave handlers), notifications (showNotification) and the Escape branch
    of the keydown handler. Each overlay is appended hidden, gets the `show`
    class 10 ms later, loses it when hidden, and is removed 300 ms after that.
    Timers are an explicit queue over a virtual clock; nothing deduplicates
    tooltips and no timer is ever cancelled. */
module Overlays {
  import opened Wrappers
  import opened Timers

  /** Delays used by the handlers, in ms. */
  const ShowDelay: int := 10
  const FadeDelay: int := 300
  const AutoHideDelay: int := 3000

  /** showNotification's default `type`. */
  const DefaultType: string := "info"

  /** A tooltip (class `tooltip`) or a notification (class
      `notification notification-<type>`). */
  datatype Kind = Tooltip | Notification(noticeType: string)

  /** An overlay element attached to the body: its identity, kind, text content
      and whether it has the `show` class. */
  datatype Node = Node(id: nat, kind: Kind, text: string, show: bool)

  /** What a pending timer's callback does to the element it captured:
      add `show`; the notification's auto-hide (remove `show`, then remove the
      node 300 ms later); remove the node. */
  datatype Action = AddShow(target: nat) | AutoHide(target: nat) | Detach(target: nat)

  /** The document as the handlers see it: the clock, the overlays attached to
      the body in document order, the pending timers, and the next element
      identity and timer handle to be issued. Detached elements are not kept:
      changing their classes has no visible effect. */
  datatype Page = Page(now: int, nodes: seq<Node>, timers: seq<Timer<Action>>, nextId: nat, nextHandle: nat)

  /** The element's className as the handlers set it. */
  function ClassName(k: Kind): string
  {
    match k
    case Tooltip => "tooltip"
    case Notification(t) => "notification notification-" + t
  }

  /** Matches the selector `.notification.show`. */
  predicate IsShownNotification(n: Node)
  {
    n.kind.Notification? && n.show
  }

  /** The identities of the attached overlays. */
  function Ids(nodes: seq<Node>): set<nat>
  {
    set n | n in nodes :: n.id
  }

  /** Overlays are only ever appended, so document order is creation order:
      identities increase along the body and are all below nextId; no timer is
      overdue and every handle was issued. */
  ghost predicate PageValid(p: Page)
  {
    && Ascending(p.nodes)
    && (forall n :: n in p.nodes ==> n.id < p.nextId)
    && NotOverdue(p.timers, p.now)
    && HandlesBelow(p.timers, p.nextHandle)
  }

  /** A page with no overlays and no pending timers at time `now`. */
  function EmptyPage(now: int): Page
  {
    Page(now, [], [], 0, 1)
  }

  /** setTimeout(callback, delay) at the current time: one timer joins the
      queue behind the pending ones, with a fresh handle and due no earlier
      than now; nothing else changes. */
  function Schedule(p: Page, delay: int, a: Action): (r: Page)
    ensures r.now == p.now && r.nodes == p.nodes && r.nextId == p.nextId
    ensures r.nextHandle == p.nextHandle + 1
    ensures |r.timers| == |p.timers| + 1 && r.timers[..|p.timers|] == p.timers
    ensures var t := r.timers[|p.timers|]; t.handle == p.nextHandle && t.due == p.now + Delay(delay) && t.action == a
  {
    p.(timers := p.timers + [Timer(p.nextHandle, p.now + Delay(delay), a)], nextHandle := p.nextHandle + 1)
  }

  /** createElement + document.body.appendChild: a new element without `show`,
      with a fresh identity, after all attached ones; nothing else changes. */
  function Append(p: Page, k: Kind, text: string): (r: Page)
    ensures r.now == p.now && r.timers == p.timers && r.nextHandle == p.nextHandle
    ensures r.nextId == p.nextId + 1
    ensures |r.nodes| == |p.nodes| + 1 && r.nodes[..|p.nodes|] == p.nodes
    ensures r.nodes[|p.nodes|] == Node(p.nextId, k, text, false)
  {
    p.(nodes := p.nodes + [Node(p.nextId, k, text, false)], nextId := p.nextId + 1)
  }

  /** classList.add / classList.remove of `show` on the element with identity
      `id`; nothing visible happens when it is no longer attached. */
  function SetShow(nodes: seq<Node>, id: nat, show: bool): (r: seq<Node>)
    ensures |r| == |nodes|
    ensures forall i :: 0 <= i < |nodes| ==> r[i] == if nodes[i].id == id then nodes[i].(show := show) else nodes[i]
  {
    seq(|nodes|, i requires 0 <= i < |nodes| => if nodes[i].id == id then nodes[i].(show := show) else nodes[i])
  }

  /** element.remove(): the element with identity `id` leaves the body; removing
      an element that is not attached does nothing. */
  function Without(nodes: seq<Node>, id: nat): (r: seq<Node>)
    ensures forall n :: n in r ==> n in nodes && n.id != id
    ensures forall n :: n in nodes && n.id != id ==> n in r
    ensures id !in Ids(nodes) ==> r == nodes
    ensures |r| <= |nodes|
  {
    if nodes == [] then []
    else if nodes[0].id == id then Without(nodes[1..], id)
    else [nodes[0]] + Without(nodes[1..], id)
  }

  /** Identities increase along the sequence. */
  ghost predicate Ascending(nodes: seq<Node>)
  {
    forall i, j :: 0 <= i < j < |nodes| ==> nodes[i].id < nodes[j].id
  }

  /** Prepending an element older than all others keeps document order. */
  lemma AscendingCons(n: Node, rest: seq<Node>)
    requires Ascending(rest) && forall m :: m in rest ==> n.id < m.id
    ensures Ascending([n] + rest)
  {
  }

  /** In document order, the first element is older than all the others. */
  lemma AscendingHead(nodes: seq<Node>)
    requires nodes != [] && Ascending(nodes)
    ensures forall m :: m in nodes[1..] ==> nodes[0].id < m.id
  {
  }

  /** Removing an element keeps the others in document order. */
  lemma {:induction false} WithoutAscending(nodes: seq<Node>, id: nat)
    requires Ascending(nodes)
    ensures Ascending(Without(nodes, id))
  {
    if nodes != [] {
      WithoutAscending(nodes[1..], id);
      if nodes[0].id != id {
        AscendingHead(nodes);
        AscendingCons(nodes[0], Without(nodes[1..], id));
      }
    }
  }

  /** document.querySelector('.tooltip'): the index of the first tooltip in
      document order, if any. */
  function FirstTooltip(nodes: seq<Node>): (r: Option<nat>)
    ensures r.Some? ==> r.value < |nodes| && nodes[r.value].kind == Tooltip
    ensures r.Some? ==> forall i :: 0 <= i < r.value ==> nodes[i].kind != Tooltip
    ensures r.None? ==> forall i :: 0 <= i < |nodes| ==> nodes[i].kind != Tooltip
  {
    if nodes == [] then None
    else if nodes[0].kind == Tooltip then Some(0)
    else match FirstTooltip(nodes[1..])
      case None => None
      case Some(k) => Some(k + 1)
  }

  /** The attached tooltips, in document order. */
  function Tooltips(nodes: seq<Node>): seq<Node>
  {
    if nodes == [] then []
    else (if nodes[0].kind == Tooltip then [nodes[0]] else []) + Tooltips(nodes[1..])
  }

  // ------------------------------------------------------------- handlers

  /** mouseenter on an element with data-tooltip = text: a new tooltip is
      appended and gets `show` 10 ms later. */
  function OnMouseEnter(p: Page, text: string): (r: Page)
    ensures r.now == p.now && r.nextId == p.nextId + 1
    ensures r.nodes == p.nodes + [Node(p.nextId, Tooltip, text, false)]
    ensures |r.timers| == |p.timers| + 1 && r.timers[..|p.timers|] == p.timers
    ensures r.timers[|p.timers|] == Timer(p.nextHandle, p.now + ShowDelay, AddShow(p.nextId))
  {
    Schedule(Append(p, Tooltip, text), ShowDelay, AddShow(p.nextId))
  }

  /** mouseleave on any tooltip element: the FIRST tooltip of the document loses
      `show` now and is removed 300 ms later; without a tooltip, nothing. */
  function OnMouseLeave(p: Page): (r: Page)
    ensures r.now == p.now && r.nextId == p.nextId && |r.nodes| == |p.nodes|
    ensures forall i :: 0 <= i < |p.nodes| ==> r.nodes[i] == p.nodes[i] || r.nodes[i] == p.nodes[i].(show := false)
    ensures |p.timers| <= |r.timers| <= |p.timers| + 1 && r.timers[..|p.timers|] == p.timers
    ensures forall t :: t in r.timers[|p.timers|..] ==> t.due == p.now + FadeDelay && t.action.Detach?
  {
    match FirstTooltip(p.nodes)
    case None => p
    case Some(k) =>
      Schedule(p.(nodes := p.nodes[k := p.nodes[k].(show := false)]), FadeDelay, Detach(p.nodes[k].id))
  }

  /** showNotification(message, type): a new notification is appended, gets
      `show` 10 ms later, and is auto-hidden 3000 ms later. */
  function OnShowNotification(p: Page, message: string, noticeType: Option<string>): (r: Page)
    ensures r.now == p.now && r.nextId == p.nextId + 1
    ensures r.nodes == p.nodes + [Node(p.nextId, Notification(if noticeType.Some? then noticeType.value else DefaultType), message, false)]
    ensures |r.timers| == |p.timers| + 2 && r.timers[..|p.timers|] == p.timers
    ensures r.timers[|p.timers|] == Timer(p.nextHandle, p.now + ShowDelay, AddShow(p.nextId))
    ensures r.timers[|p.timers| + 1] == Timer(p.nextHandle + 1, p.now + AutoHideDelay, AutoHide(p.nextId))
  {
    var t := if noticeType.Some? then noticeType.value else DefaultType;
    Schedule(Schedule(Append(p, Notification(t), message), ShowDelay, AddShow(p.nextId)),
             AutoHideDelay, AutoHide(p.nextId))
  }

  /** The Escape key, from document position i on: every notification with
      `show` loses it and is removed 300 ms later. */
  function EscapeFrom(p: Page, i: nat): Page
    decreases |p.nodes| - i
  {
    if i >= |p.nodes| then p
    else
      var n := p.nodes[i];
      var q := if IsShownNotification(n)
               then Schedule(p.(nodes := p.nodes[i := n.(show := false)]), FadeDelay, Detach(n.id))
               else p;
      EscapeFrom(q, i + 1)
  }

  /** The Escape key: every element in place, each shown notification
      dismissed and every other element as it was. */
  function OnEscape(p: Page): (r: Page)
    ensures r.now == p.now && r.nextId == p.nextId && |r.nodes| == |p.nodes|
    ensures forall k :: 0 <= k < |p.nodes| ==> r.nodes[k] == Dismissed(p.nodes[k])
  {
    EscapeFromDismisses(p, 0);
    EscapeFrom(p, 0)
  }

  /** The host runs the next timer (earliest due, first scheduled), moving the
      clock to its due time. */
  function OnTimer(p: Page): (r: Page)
    requires p.timers != []
    ensures r.now == p.timers[Earliest(p.timers)].due && r.nextId == p.nextId
    ensures |r.nodes| <= |p.nodes| && |r.timers| <= |p.timers|
  {
    var k := Earliest(p.timers);
    var t := p.timers[k];
    var q := p.(now := t.due, timers := RemoveAt(p.timers, k));
    match t.action
    case AddShow(id) => q.(nodes := SetShow(q.nodes, id, true))
    case AutoHide(id) => Schedule(q.(nodes := SetShow(q.nodes, id, false)), FadeDelay, Detach(id))
    case Detach(id) => q.(nodes := Without(q.nodes, id))
  }

  /** No input until time t: the clock moves on to t when no pending timer is
      due before then (a timer due earlier would have to fire first, and the
      page is left as it is). */
  function OnWait(p: Page, t: int): (r: Page)
    ensures r.nodes == p.nodes && r.timers == p.timers && r.nextId == p.nextId && r.nextHandle == p.nextHandle
    ensures r.now == t || r == p
  {
    if p.now <= t && (p.timers == [] || t <= p.timers[Earliest(p.timers)].due) then p.(now := t) else p
  }

  /** Everything that can happen to the page. */
  datatype Input = Enter(text: string) | Leave | Notify(message: string, noticeType: Option<string>) | EscapeKey | Tick | Wait(until: int)

  /** One input; a tick with no pending timer does nothing. */
  function Step(p: Page, e: Input): Page
  {
    match e
    case Enter(text) => OnMouseEnter(p, text)
    case Leave => OnMouseLeave(p)
    case Notify(m, t) => OnShowNotification(p, m, t)
    case EscapeKey => OnEscape(p)
    case Tick => if p.timers == [] then p else OnTimer(p)
    case Wait(t) => OnWait(p, t)
  }

  /** A sequence of inputs. */
  function Run(p: Page, inputs: seq<Input>): Page
    decreases |inputs|
  {
    if inputs == [] then p else Run(Step(p, inputs[0]), inputs[1..])
  }

  // ------------------------------------------------------------- properties

  /** Scheduling a timer and appending an element keep the page valid. */
  lemma ScheduleKeepsValid(p: Page, delay: int, a: Action)
    requires PageValid(p)
    ensures PageValid(Schedule(p, delay, a))
  {
  }

  lemma AppendKeepsValid(p: Page, k: Kind, text: string)
    requires PageValid(p)
    ensures PageValid(Append(p, k, text))
  {
  }

  /** The tooltips of two stretches of the body, one after the other. */
  lemma {:induction false} TooltipsAppend(a: seq<Node>, b: seq<Node>)
    ensures Tooltips(a + b) == Tooltips(a) + Tooltips(b)
  {
    if a != [] {
      var head := if a[0].kind == Tooltip then [a[0]] else [];
      assert (a + b)[0] == a[0] && (a + b)[1..] == a[1..] + b;
      TooltipsAppend(a[1..], b);
      calc {
        Tooltips(a + b);
        head + Tooltips(a[1..] + b);
        head + (Tooltips(a[1..]) + Tooltips(b));
        (head + Tooltips(a[1..])) + Tooltips(b);
      }
    } else {
      assert a + b == b;
    }
  }

  /** querySelector('.tooltip') finds the first of the document's tooltips,
      and finds one exactly when there is one. */
  lemma {:induction false} FirstTooltipIsFirstOfTooltips(nodes: seq<Node>)
    ensures FirstTooltip(nodes).Some? <==> Tooltips(nodes) != []
    ensures FirstTooltip(nodes).Some? ==> nodes[FirstTooltip(nodes).value] == Tooltips(nodes)[0]
  {
    if nodes != [] && nodes[0].kind != Tooltip {
      FirstTooltipIsFirstOfTooltips(nodes[1..]);
    }
  }

  /** With distinct identities, changing the element at index k is changing the
      element with that element's identity. */
  lemma UpdateAtIsSetShow(nodes: seq<Node>, k: nat, show: bool)
    requires Ascending(nodes) && k < |nodes|
    ensures nodes[k := nodes[k].(show := show)] == SetShow(nodes, nodes[k].id, show)
  {
  }

  /** SetShow keeps identities and so the validity of the page. */
  lemma SetShowKeepsValid(p: Page, id: nat, show: bool)
    requires PageValid(p)
    ensures PageValid(p.(nodes := SetShow(p.nodes, id, show)))
  {
  }

  /** mouseenter: one more tooltip on every entry, however many are already
      attached (nothing deduplicates); its `show` is due 10 ms later and no
      pending timer is touched. */
  lemma MouseEnterAddsTooltip(p: Page, text: string)
    requires PageValid(p)
    ensures var r := OnMouseEnter(p, text);
            && PageValid(r) && r.now == p.now
            && r.nodes == p.nodes + [Node(p.nextId, Tooltip, text, false)]
            && Tooltips(r.nodes) == Tooltips(p.nodes) + [Node(p.nextId, Tooltip, text, false)]
            && r.timers == p.timers + [Timer(p.nextHandle, p.now + ShowDelay, AddShow(p.nextId))]
  {
    AppendKeepsValid(p, Tooltip, text);
    ScheduleKeepsValid(Append(p, Tooltip, text), ShowDelay, AddShow(p.nextId));
    TooltipsAppend(p.nodes, [Node(p.nextId, Tooltip, text, false)]);
  }

  /** Two mouseenters in a row leave two tooltips attached: there is no
      single-tooltip guarantee. */
  lemma TwoEntersTwoTooltips(p: Page, a: string, b: string)
    requires PageValid(p)
    ensures |Tooltips(OnMouseEnter(OnMouseEnter(p, a), b).nodes)| == |Tooltips(p.nodes)| + 2
  {
    MouseEnterAddsTooltip(p, a);
    MouseEnterAddsTooltip(OnMouseEnter(p, a), b);
  }

  /** mouseleave acts on the first tooltip in document order only, whichever
      element was left: it loses `show` now and its removal is due 300 ms later;
      with no tooltip attached nothing happens. */
  lemma MouseLeaveHidesFirstTooltip(p: Page)
    requires PageValid(p)
    ensures var r := OnMouseLeave(p);
            && PageValid(r) && r.now == p.now
            && (Tooltips(p.nodes) == [] ==> r == p)
            && (Tooltips(p.nodes) != [] ==>
                  var f := Tooltips(p.nodes)[0];
                  && r.nodes == SetShow(p.nodes, f.id, false)
                  && r.timers == p.timers + [Timer(p.nextHandle, p.now + FadeDelay, Detach(f.id))])
  {
    FirstTooltipIsFirstOfTooltips(p.nodes);
    match FirstTooltip(p.nodes)
    case None =>
    case Some(k) =>
      UpdateAtIsSetShow(p.nodes, k, false);
      SetShowKeepsValid(p, p.nodes[k].id, false);
      ScheduleKeepsValid(p.(nodes := SetShow(p.nodes, p.nodes[k].id, false)), FadeDelay, Detach(p.nodes[k].id));
  }

  /** showNotification appends a notification of class
      `notification notification-<type>` (type 'info' when none is given)
      and schedules its `show` 10 ms and its auto-hide 3000 ms later; the
      other elements and the pending timers are untouched. */
  lemma ShowNotificationAppends(p: Page, message: string, noticeType: Option<string>)
    requires PageValid(p)
    ensures var r := OnShowNotification(p, message, noticeType);
            var t := if noticeType.Some? then noticeType.value else "info";
            && PageValid(r) && r.now == p.now
            && r.nodes == p.nodes + [Node(p.nextId, Notification(t), message, false)]
            && r.timers == p.timers + [Timer(p.nextHandle, p.now + 10, AddShow(p.nextId)),
                                       Timer(p.nextHandle + 1, p.now + 3000, AutoHide(p.nextId))]
  {
  }

  /** The class names the handlers give a new tooltip and a new notification
      (type 'info' when none is given). */
  lemma NewClassNames(p: Page, text: string, message: string, noticeType: Option<string>)
    ensures ClassName(OnMouseEnter(p, text).nodes[|p.nodes|].kind) == "tooltip"
    ensures var t := if noticeType.Some? then noticeType.value else "info";
            ClassName(OnShowNotification(p, message, noticeType).nodes[|p.nodes|].kind) == "notification notification-" + t
  {
  }

  /** An element as the Escape key leaves it. */
  function Dismissed(n: Node): Node
  {
    if IsShownNotification(n) then n.(show := false) else n
  }

  /** The identities of the notifications that have `show`, in document order
      (what querySelectorAll('.notification.show') lists). */
  function ShownNotificationIds(nodes: seq<Node>): seq<nat>
  {
    if nodes == [] then []
    else (if IsShownNotification(nodes[0]) then [nodes[0].id] else []) + ShownNotificationIds(nodes[1..])
  }

  /** `ts` are removal timers due at `due`, one per identity in `ids`, in order. */
  ghost predicate Detaches(ts: seq<Timer<Action>>, due: int, ids: seq<nat>)
  {
    && |ts| == |ids|
    && forall j :: 0 <= j < |ts| ==> ts[j].due == due && ts[j].action == Detach(ids[j])
  }

  /** The Escape loop from position i: positions before i are untouched and
      those from i on are dismissed. */
  lemma {:induction false} EscapeFromDismisses(p: Page, i: nat)
    requires i <= |p.nodes|
    ensures var r := EscapeFrom(p, i);
            && r.now == p.now && r.nextId == p.nextId
            && |r.nodes| == |p.nodes|
            && (forall k :: 0 <= k < i ==> r.nodes[k] == p.nodes[k])
            && (forall k :: i <= k < |p.nodes| ==> r.nodes[k] == Dismissed(p.nodes[k]))
    decreases |p.nodes| - i
  {
    if i < |p.nodes| {
      var n := p.nodes[i];
      if IsShownNotification(n) {
        EscapeFromDismisses(Schedule(p.(nodes := p.nodes[i := n.(show := false)]), FadeDelay, Detach(n.id)), i + 1);
      } else {
        EscapeFromDismisses(p, i + 1);
      }
    }
  }

  /** The Escape loop from position i appends one removal timer per shown
      notification from i on, due 300 ms later, after the pending ones. */
  lemma {:induction false} EscapeFromSchedules(p: Page, i: nat)
    requires i <= |p.nodes|
    ensures var r := EscapeFrom(p, i);
            && |p.timers| <= |r.timers| && r.timers[..|p.timers|] == p.timers
            && Detaches(r.timers[|p.timers|..], p.now + FadeDelay, ShownNotificationIds(p.nodes[i..]))
    decreases |p.nodes| - i
  {
    if i < |p.nodes| {
      var n := p.nodes[i];
      assert p.nodes[i..][0] == n && p.nodes[i..][1..] == p.nodes[i + 1..];
      if IsShownNotification(n) {
        var q := Schedule(p.(nodes := p.nodes[i := n.(show := false)]), FadeDelay, Detach(n.id));
        EscapeFromSchedules(q, i + 1);
        assert q.nodes[i + 1..] == p.nodes[i + 1..];
        var r := EscapeFrom(q, i + 1);
        assert r.timers[|p.timers|..] == [q.timers[|p.timers|]] + r.timers[|q.timers|..];
      } else {
        EscapeFromSchedules(p, i + 1);
      }
    } else {
      assert p.nodes[i..] == [];
    }
  }

  /** Rewriting the element at position i with the same identity keeps the
      page valid. */
  lemma UpdateAtKeepsValid(p: Page, i: nat, n: Node)
    requires PageValid(p) && i < |p.nodes| && n.id == p.nodes[i].id
    ensures PageValid(p.(nodes := p.nodes[i := n]))
  {
  }

  lemma {:induction false} EscapeFromKeepsValid(p: Page, i: nat)
    requires PageValid(p)
    ensures PageValid(EscapeFrom(p, i))
    decreases |p.nodes| - i
  {
    if i < |p.nodes| {
      var n := p.nodes[i];
      if IsShownNotification(n) {
        UpdateAtKeepsValid(p, i, n.(show := false));
        ScheduleKeepsValid(p.(nodes := p.nodes[i := n.(show := false)]), FadeDelay, Detach(n.id));
        EscapeFromKeepsValid(Schedule(p.(nodes := p.nodes[i := n.(show := false)]), FadeDelay, Detach(n.id)), i + 1);
      } else {
        EscapeFromKeepsValid(p, i + 1);
      }
    }
  }

  /** Escape: every notification that had `show` loses it and its removal is
      due 300 ms later, in document order; tooltips and hidden notifications
      are untouched, and no pending timer is cancelled. */
  lemma EscapeDismissesShownNotifications(p: Page)
    requires PageValid(p)
    ensures var r := OnEscape(p);
            && PageValid(r) && r.now == p.now && r.nextId == p.nextId
            && |r.nodes| == |p.nodes|
            && (forall k :: 0 <= k < |p.nodes| ==> r.nodes[k] == Dismissed(p.nodes[k]))
            && (forall n :: n in r.nodes ==> !IsShownNotification(n))
            && |p.timers| <= |r.timers| && r.timers[..|p.timers|] == p.timers
            && Detaches(r.timers[|p.timers|..], p.now + FadeDelay, ShownNotificationIds(p.nodes))
  {
    EscapeFromDismisses(p, 0);
    EscapeFromSchedules(p, 0);
    EscapeFromKeepsValid(p, 0);
    assert p.nodes[0..] == p.nodes;
  }

  /** Taking the next timer out of the queue and moving the clock to its due
      time keeps the page valid; the clock does not run backwards. */
  lemma TakeNextKeepsValid(p: Page)
    requires PageValid(p) && p.timers != []
    ensures var k := Earliest(p.timers);
            && p.now <= p.timers[k].due
            && PageValid(p.(now := p.timers[k].due, timers := RemoveAt(p.timers, k)))
  {
  }

  /** Removing an element removes exactly its identity. */
  lemma WithoutIds(nodes: seq<Node>, id: nat)
    ensures Ids(Without(nodes, id)) == Ids(nodes) - {id}
  {
  }

  /** The host fires the earliest pending timer (first scheduled on a tie): the
      clock moves forward to its due time, only that timer leaves the queue, and
      its callback adds `show`, auto-hides (remove `show`, removal due 300 ms
      later) or removes the element. */
  lemma TimerFiresEarliest(p: Page)
    requires PageValid(p) && p.timers != []
    ensures var t := p.timers[Earliest(p.timers)];
            PageValid(OnTimer(p)) && p.now <= OnTimer(p).now == t.due
    ensures var t := p.timers[Earliest(p.timers)];
            var r := OnTimer(p);
            t.action.AddShow? ==>
              r.nodes == SetShow(p.nodes, t.action.target, true) && r.timers == RemoveAt(p.timers, Earliest(p.timers))
    ensures var t := p.timers[Earliest(p.timers)];
            var r := OnTimer(p);
            t.action.AutoHide? ==>
              && r.nodes == SetShow(p.nodes, t.action.target, false)
              && r.timers == RemoveAt(p.timers, Earliest(p.timers)) + [Timer(p.nextHandle, t.due + FadeDelay, Detach(t.action.target))]
    ensures var t := p.timers[Earliest(p.timers)];
            var r := OnTimer(p);
            t.action.Detach? ==>
              && r.nodes == Without(p.nodes, t.action.target)
              && Ids(r.nodes) == Ids(p.nodes) - {t.action.target}
              && r.timers == RemoveAt(p.timers, Earliest(p.timers))
  {
    var k := Earliest(p.timers);
    var t := p.timers[k];
    var q := p.(now := t.due, timers := RemoveAt(p.timers, k));
    TakeNextKeepsValid(p);
    match t.action
    case AddShow(id) =>
      SetShowKeepsValid(q, id, true);
    case AutoHide(id) =>
      AutoHideFires(p);
    case Detach(id) =>
      WithoutAscending(p.nodes, id);
      WithoutIds(p.nodes, id);
  }

  /** The auto-hide timer's callback: the element loses `show` and its removal
      is due 300 ms after the timer's due time. */
  lemma AutoHideFires(p: Page)
    requires PageValid(p) && p.timers != [] && p.timers[Earliest(p.timers)].action.AutoHide?
    ensures PageValid(OnTimer(p))
    ensures OnTimer(p).nodes == SetShow(p.nodes, p.timers[Earliest(p.timers)].action.target, false)
    ensures var k := Earliest(p.timers);
            var t := p.timers[k];
            OnTimer(p).timers == RemoveAt(p.timers, k) + [Timer(p.nextHandle, t.due + FadeDelay, Detach(t.action.target))]
  {
    var k := Earliest(p.timers);
    var t := p.timers[k];
    var q0 := p.(now := t.due, timers := RemoveAt(p.timers, k));
    var q := q0.(nodes := SetShow(p.nodes, t.action.target, false));
    TakeNextKeepsValid(p);
    SetShowKeepsValid(q0, t.action.target, false);
    ScheduleKeepsValid(q, FadeDelay, Detach(t.action.target));
    ScheduleTimers(q, FadeDelay, Detach(t.action.target));
    assert OnTimer(p) == Schedule(q, FadeDelay, Detach(t.action.target));
  }

  /** The queue after a setTimeout, element by element. */
  lemma ScheduleTimers(p: Page, delay: int, a: Action)
    ensures Schedule(p, delay, a).timers == p.timers + [Timer(p.nextHandle, p.now + Delay(delay), a)]
  {
  }

  /** Waiting keeps the page valid and reaches the requested time exactly when
      no pending timer is due before it; otherwise the page is unchanged. */
  lemma WaitMovesClock(p: Page, t: int)
    requires PageValid(p)
    ensures var r := OnWait(p, t);
            && PageValid(r) && p.now <= r.now
            && (r.now == t <==> p.now <= t && forall x :: x in p.timers ==> t <= x.due)
            && (r.now != t ==> r == p)
  {
  }

  /** Two bodies whose elements carry the same identities position by
      position have the same identities. */
  lemma SameIds(a: seq<Node>, b: seq<Node>)
    requires |a| == |b| && forall k :: 0 <= k < |a| ==> a[k].id == b[k].id
    ensures Ids(a) == Ids(b)
  {
  }

  /** Appending an element adds exactly its identity. */
  lemma AppendIds(a: seq<Node>, n: Node)
    ensures Ids(a + [n]) == Ids(a) + {n.id}
  {
  }

  /** Firing a timer keeps or removes elements, never adds one. */
  lemma TimerIds(p: Page)
    requires PageValid(p) && p.timers != []
    ensures Ids(OnTimer(p).nodes) <= Ids(p.nodes)
  {
  }

  /** Every input keeps the page valid, never moves the clock backwards, and
      attaches no element other than the one with the next fresh identity. */
  lemma StepKeepsValid(p: Page, e: Input)
    requires PageValid(p)
    ensures var r := Step(p, e);
            && PageValid(r) && p.now <= r.now && p.nextId <= r.nextId
            && Ids(r.nodes) <= Ids(p.nodes) + {p.nextId}
  {
    match e
    case Enter(text) =>
      MouseEnterAddsTooltip(p, text);
      AppendIds(p.nodes, Node(p.nextId, Tooltip, text, false));
    case Leave =>
      MouseLeaveHidesFirstTooltip(p);
      SameIds(p.nodes, OnMouseLeave(p).nodes);
    case Notify(m, t) =>
      ShowNotificationAppends(p, m, t);
      AppendIds(p.nodes, OnShowNotification(p, m, t).nodes[|p.nodes|]);
    case EscapeKey =>
      EscapeDismissesShownNotifications(p);
      SameIds(p.nodes, OnEscape(p).nodes);
    case Tick =>
      if p.timers != [] {
        TimerFiresEarliest(p);
        TimerIds(p);
      }
    case Wait(t) =>
      WaitMovesClock(p, t);
  }

  /** Validity holds along any sequence of inputs, and time only moves on. */
  lemma {:induction false} RunKeepsValid(p: Page, inputs: seq<Input>)
    requires PageValid(p)
    ensures PageValid(Run(p, inputs)) && p.now <= Run(p, inputs).now
    decreases |inputs|
  {
    if inputs != [] {
      StepKeepsValid(p, inputs[0]);
      RunKeepsValid(Step(p, inputs[0]), inputs[1..]);
    }
  }

  /** An element once removed never comes back: identities are not reused. */
  lemma {:induction false} NoResurrection(p: Page, inputs: seq<Input>, id: nat)
    requires PageValid(p) && id < p.nextId && id !in Ids(p.nodes)
    ensures id !in Ids(Run(p, inputs).nodes)
    decreases |inputs|
  {
    if inputs != [] {
      StepKeepsValid(p, inputs[0]);
      NoResurrection(Step(p, inputs[0]), inputs[1..], id);
    }
  }

  /** Only the host's firing of a timer takes one out of the queue: no handler
      cancels a pending timer, so every scheduled callback eventually runs. */
  lemma HandlersNeverCancel(p: Page, e: Input)
    requires PageValid(p) && !e.Tick?
    ensures |p.timers| <= |Step(p, e).timers| && Step(p, e).timers[..|p.timers|] == p.timers
  {
    match e
    case Enter(text) =>
      MouseEnterAddsTooltip(p, text);
    case Leave =>
      MouseLeaveHidesFirstTooltip(p);
    case Notify(m, t) =>
      ShowNotificationAppends(p, m, t);
    case EscapeKey =>
      EscapeDismissesShownNotifications(p);
    case Wait(t) =>
  }

  /** Running inputs one after the other. */
  lemma RunCons(p: Page, e: Input, rest: seq<Input>)
    ensures Run(p, [e] + rest) == Run(Step(p, e), rest)
  {
  }

  /** Changing the classes of the element appended last. */
  lemma SetShowLast(a: seq<Node>, n: Node, show: bool)
    requires forall m :: m in a ==> m.id != n.id
    ensures SetShow(a + [n], n.id, show) == a + [n.(show := show)]
  {
  }

  /** Removing the element appended last gives the body back. */
  lemma {:induction false} WithoutLast(a: seq<Node>, n: Node)
    requires forall m :: m in a ==> m.id != n.id
    ensures Without(a + [n], n.id) == a
  {
    if a == [] {
      assert [] + [n] == [n] && [n][1..] == [];
    } else {
      assert (a + [n])[0] == a[0] && (a + [n])[1..] == a[1..] + [n];
      assert a[0] in a;
      WithoutLast(a[1..], n);
      assert [a[0]] + a[1..] == a;
    }
  }

  /** The three timer firings of a notification, one at a time. */
  lemma FireShowOfTwo(q: Page, a: seq<Node>, n: Node, t1: Timer<Action>, t2: Timer<Action>)
    requires q.nodes == a + [n] && (forall m :: m in a ==> m.id != n.id)
    requires q.timers == [t1, t2] && t1.due <= t2.due && t1.action == AddShow(n.id)
    ensures Step(q, Tick) == q.(now := t1.due, nodes := a + [n.(show := true)], timers := [t2])
  {
  }

  lemma FireAutoHideAlone(q: Page, a: seq<Node>, n: Node, t: Timer<Action>)
    requires q.nodes == a + [n] && (forall m :: m in a ==> m.id != n.id)
    requires q.timers == [t] && t.action == AutoHide(n.id)
    ensures Step(q, Tick) == q.(now := t.due, nodes := a + [n.(show := false)],
                                timers := [Timer(q.nextHandle, t.due + FadeDelay, Detach(n.id))],
                                nextHandle := q.nextHandle + 1)
  {
  }

  lemma FireDetachAlone(q: Page, a: seq<Node>, n: Node, t: Timer<Action>)
    requires q.nodes == a + [n] && (forall m :: m in a ==> m.id != n.id)
    requires q.timers == [t] && t.action == Detach(n.id)
    ensures Step(q, Tick) == q.(now := t.due, nodes := a, timers := [])
  {
    assert Earliest(q.timers) == 0;
    assert RemoveAt(q.timers, 0) == [];
    WithoutLast(a, n);
  }

  /** The pages a notification goes through, input by input. */
  lemma NotificationSteps(p: Page, message: string, noticeType: Option<string>)
    requires PageValid(p) && p.timers == []
    ensures var n := Node(p.nextId, Notification(if noticeType.Some? then noticeType.value else "info"), message, false);
            var p2 := Step(Step(p, Notify(message, noticeType)), Tick);
            var p3 := Step(p2, Tick);
            var p4 := Step(p3, Tick);
            && p2.now == p.now + 10 && p2.nodes == p.nodes + [n.(show := true)]
            && p3.now == p.now + 3000 && p3.nodes == p.nodes + [n]
            && p4.now == p.now + 3300 && p4.nodes == p.nodes && p4.timers == []
  {
    var t := if noticeType.Some? then noticeType.value else DefaultType;
    var n := Node(p.nextId, Notification(t), message, false);
    var p1 := Step(p, Notify(message, noticeType));
    assert p1 == OnShowNotification(p, message, noticeType);
    ShowNotificationAppends(p, message, noticeType);
    assert p1.nodes == p.nodes + [n];
    assert forall m :: m in p.nodes ==> m.id != n.id;
    var h := p.nextHandle;
    var show := Timer(h, p.now + 10, AddShow(p.nextId));
    var autoHide := Timer(h + 1, p.now + 3000, AutoHide(p.nextId));
    assert p1.timers == [] + [show, autoHide];
    assert [] + [show, autoHide] == [show, autoHide];
    FireShowOfTwo(p1, p.nodes, n, show, autoHide);
    var p2 := Step(p1, Tick);
    FireAutoHideAlone(p2, p.nodes, n.(show := true), autoHide);
    var p3 := Step(p2, Tick);
    FireDetachAlone(p3, p.nodes, n, p3.timers[0]);
  }

  /** A notification on a page with no pending timers: it gets `show` 10 ms
      after showNotification, loses it at 3000 ms, and is removed at 3300 ms,
      leaving the body as it was and no timer pending. */
  lemma NotificationLifecycle(p: Page, message: string, noticeType: Option<string>)
    requires PageValid(p) && p.timers == []
    ensures var n := Node(p.nextId, Notification(if noticeType.Some? then noticeType.value else "info"), message, false);
            var shown := Run(p, [Notify(message, noticeType), Tick]);
            var hidden := Run(p, [Notify(message, noticeType), Tick, Tick]);
            var gone := Run(p, [Notify(message, noticeType), Tick, Tick, Tick]);
            && shown.now == p.now + 10 && shown.nodes == p.nodes + [n.(show := true)]
            && hidden.now == p.now + 3000 && hidden.nodes == p.nodes + [n]
            && gone.now == p.now + 3300 && gone.nodes == p.nodes && gone.timers == []
  {
    NotificationSteps(p, message, noticeType);
    var e := Notify(message, noticeType);
    var p1 := Step(p, e);
    var p2 := Step(p1, Tick);
    var p3 := Step(p2, Tick);
    RunCons(p, e, [Tick]);
    RunCons(p1, Tick, []);
    RunCons(p, e, [Tick, Tick]);
    RunCons(p1, Tick, [Tick]);
    RunCons(p2, Tick, []);
    RunCons(p, e, [Tick, Tick, Tick]);
    RunCons(p1, Tick, [Tick, Tick]);
    RunCons(p2, Tick, [Tick]);
    RunCons(p3, Tick, []);
  }

  /** The pages of the scenario below, as values. */
  function StrandedPages(): seq<Page>
  {
    var a := Node(0, Tooltip, "A", false);
    var b := Node(1, Tooltip, "B", false);
    [ EmptyPage(0),
      Page(0, [a], [Timer(1, 10, AddShow(0))], 1, 2),
      Page(10, [a.(show := true)], [], 1, 2),
      Page(10, [a], [Timer(2, 310, Detach(0))], 1, 3),
      Page(10, [a, b], [Timer(2, 310, Detach(0)), Timer(3, 20, AddShow(1))], 2, 4),
      Page(20, [a, b.(show := true)], [Timer(2, 310, Detach(0))], 2, 4),
      Page(20, [a, b.(show := true)], [Timer(2, 310, Detach(0)), Timer(4, 320, Detach(0))], 2, 5),
      Page(310, [b.(show := true)], [Timer(4, 320, Detach(0))], 2, 5),
      Page(320, [b.(show := true)], [], 2, 5) ]
  }

  /** The inputs of the scenario below. */
  function StrandedInputs(): seq<Input>
  {
    [Enter("A"), Tick, Leave, Enter("B"), Tick, Leave, Tick, Tick]
  }

  /** Each input of the scenario leads from one page to the next: A's tooltip
      comes and fades (inputs 0 to 2), B's comes and the second mouseleave
      hits A's (inputs 3 to 5), A's is removed twice (inputs 6 and 7). */
  lemma StrandedStepA(k: nat)
    requires k < 2
    ensures Step(StrandedPages()[k], StrandedInputs()[k]) == StrandedPages()[k + 1]
  {
  }

  lemma StrandedStepB(k: nat)
    requires 2 <= k < 4
    ensures Step(StrandedPages()[k], StrandedInputs()[k]) == StrandedPages()[k + 1]
  {
  }

  lemma StrandedStepC(k: nat)
    requires 4 <= k < 6
    ensures Step(StrandedPages()[k], StrandedInputs()[k]) == StrandedPages()[k + 1]
  {
  }

  lemma StrandedStepD(k: nat)
    requires 6 <= k < 8
    ensures Step(StrandedPages()[k], StrandedInputs()[k]) == StrandedPages()[k + 1]
  {
  }

  /** The scenario run from page k on. */
  lemma {:induction false} StrandedRun(k: nat)
    requires k <= 8
    ensures Run(StrandedPages()[k], StrandedInputs()[k..]) == StrandedPages()[8]
    decreases 8 - k
  {
    if k < 8 {
      if k < 2 { StrandedStepA(k); }
      else if k < 4 { StrandedStepB(k); }
      else if k < 6 { StrandedStepC(k); }
      else { StrandedStepD(k); }
      StrandedRun(k + 1);
      assert StrandedInputs()[k..][1..] == StrandedInputs()[k + 1..];
    } else {
      assert StrandedInputs()[k..] == [];
    }
  }

  /** Pointer enters A, its tooltip shows, pointer leaves (A fading); pointer
      enters B and B's tooltip shows while A's is still attached; pointer leaves
      B. The second mouseleave picks A's tooltip again, being the first in the
      document, so once A's tooltip is removed B's stays attached and shown with
      no timer left to hide it. */
  lemma LeaveStrandsLaterTooltip()
    ensures Run(EmptyPage(0), [Enter("A"), Tick, Leave, Enter("B"), Tick, Leave, Tick, Tick])
            == Page(320, [Node(1, Tooltip, "B", true)], [], 2, 5)
  {
    StrandedRun(0);
    assert StrandedInputs()[0..] == StrandedInputs();
  }

  /** The pages a hover on A passes through (inputs below). */
  function HoverPages(): seq<Page>
  {
    var a := Node(0, Tooltip, "A", false);
    [ EmptyPage(0),
      Page(0, [a], [Timer(1, 10, AddShow(0))], 1, 2),
      Page(10, [a.(show := true)], [], 1, 2),
      Page(1000, [a.(show := true)], [], 1, 2),
      Page(1000, [a], [Timer(2, 1300, Detach(0))], 1, 3),
      Page(1300, [], [], 1, 3) ]
  }

  /** Pointer enters A, the tooltip shows 10 ms later, the pointer rests on A
      until 1000 ms and leaves, and the fade-out timer fires. */
  function HoverInputs(): seq<Input>
  {
    [Enter("A"), Tick, Wait(1000), Leave, Tick]
  }

  /** Each input of the hover leads from one page to the next: the tooltip
      comes and shows (inputs 0 and 1), time passes, and it fades and goes
      (inputs 2 to 4). */
  lemma HoverStepA(k: nat)
    requires k < 2
    ensures Step(HoverPages()[k], HoverInputs()[k]) == HoverPages()[k + 1]
  {
  }

  lemma HoverStepB(k: nat)
    requires 2 <= k < 5
    ensures Step(HoverPages()[k], HoverInputs()[k]) == HoverPages()[k + 1]
  {
  }

  /** The hover run from page k on. */
  lemma {:induction false} HoverRun(k: nat)
    requires k <= 5
    ensures Run(HoverPages()[k], HoverInputs()[k..]) == HoverPages()[5]
    decreases 5 - k
  {
    if k < 5 {
      if k < 2 { HoverStepA(k); } else { HoverStepB(k); }
      HoverRun(k + 1);
      assert HoverInputs()[k..][1..] == HoverInputs()[k + 1..];
    } else {
      assert HoverInputs()[k..] == [];
    }
  }

  /** A hover that lasts past the `show` delay ends with the tooltip shown
      while the pointer rests, then faded and removed 300 ms after the pointer
      leaves: the body is left as it was. */
  lemma HoverThenLeave()
    ensures Run(EmptyPage(0), [Enter("A"), Tick, Wait(1000), Leave, Tick]) == Page(1300, [], [], 1, 3)
  {
    HoverRun(0);
    assert HoverInputs()[0..] == HoverInputs();
  }

  // ------------------------------------------------------------- the document

  /** The document whose body the handlers change in place. */
  class Document {
    var now: int
    var nodes: seq<Node>
    var timers: seq<Timer<Action>>
    var nextId: nat
    var nextHandle: nat

    /** The document as a value. */
    ghost function State(): Page
      reads this
    {
      Page(now, nodes, timers, nextId, nextHandle)
    }

    ghost predicate Valid()
      reads this
    {
      PageValid(State())
    }

    /** A loaded page with no overlay at time `start`. */
    constructor (start: int)
      ensures State() == EmptyPage(start) && Valid()
    {
      now := start;
      nodes := [];
      timers := [];
      nextId := 0;
      nextHandle := 1;
    }

    /** setTimeout(callback, delay); returns the handle. */
    method SetTimeout(delay: int, a: Action) returns (handle: nat)
      modifies this
      ensures State() == Schedule(old(State()), delay, a) && handle == old(nextHandle)
    {
      handle := nextHandle;
      timers := timers + [Timer(handle, now + Delay(delay), a)];
      nextHandle := nextHandle + 1;
    }

    /** createElement + appendChild; returns the new element's identity. */
    method AppendChild(k: Kind, text: string) returns (id: nat)
      modifies this
      ensures State() == Append(old(State()), k, text) && id == old(nextId)
    {
      id := nextId;
      nodes := nodes + [Node(id, k, text, false)];
      nextId := nextId + 1;
    }

    /** The mouseenter handler of an element carrying data-tooltip = text. */
    method MouseEnter(text: string)
      requires Valid()
      modifies this
      ensures State() == OnMouseEnter(old(State()), text) && Valid()
      ensures nodes == old(nodes) + [Node(old(nextId), Tooltip, text, false)]
    {
      MouseEnterAddsTooltip(State(), text);
      var tooltip := AppendChild(Tooltip, text);
      var _ := SetTimeout(ShowDelay, AddShow(tooltip));
    }

    /** The mouseleave handler of any element carrying data-tooltip. */
    method MouseLeave()
      requires Valid()
      modifies this
      ensures State() == OnMouseLeave(old(State())) && Valid()
    {
      MouseLeaveHidesFirstTooltip(State());
      var tooltip := FirstTooltip(nodes);
      if tooltip.Some? {
        var k := tooltip.value;
        var id := nodes[k].id;
        nodes := nodes[k := nodes[k].(show := false)];
        var _ := SetTimeout(FadeDelay, Detach(id));
      }
    }

    /** showNotification(message, type). */
    method ShowNotification(message: string, noticeType: Option<string>)
      requires Valid()
      modifies this
      ensures State() == OnShowNotification(old(State()), message, noticeType) && Valid()
    {
      ShowNotificationAppends(State(), message, noticeType);
      var t := if noticeType.Some? then noticeType.value else DefaultType;
      var notification := AppendChild(Notification(t), message);
      var _ := SetTimeout(ShowDelay, AddShow(notification));
      var _ := SetTimeout(AutoHideDelay, AutoHide(notification));
    }

    /** The Escape branch of the keydown handler: forEach over the
        notifications that have `show`, in document order. */
    method Escape()
      requires Valid()
      modifies this
      ensures State() == OnEscape(old(State())) && Valid()
      ensures forall n :: n in nodes ==> !IsShownNotification(n)
    {
      EscapeDismissesShownNotifications(State());
      var i := 0;
      while i < |nodes|
        invariant i <= |nodes|
        invariant EscapeFrom(State(), i) == OnEscape(old(State()))
        decreases |nodes| - i
      {
        var n := nodes[i];
        if IsShownNotification(n) {
          nodes := nodes[i := n.(show := false)];
          var _ := SetTimeout(FadeDelay, Detach(n.id));
        }
        i := i + 1;
      }
    }

    /** Time passes with no input until t. */
    method AdvanceTo(t: int)
      requires Valid()
      modifies this
      ensures State() == OnWait(old(State()), t) && Valid()
    {
      WaitMovesClock(State(), t);
      if now <= t && (timers == [] || t <= timers[Earliest(timers)].due) {
        now := t;
      }
    }

    /** The host runs the next pending timer's callback. */
    method FireNext()
      requires Valid() && timers != []
      modifies this
      ensures State() == OnTimer(old(State())) && Valid()
      ensures old(now) <= now
    {
      TimerFiresEarliest(State());
      var k := Earliest(timers);
      var t := timers[k];
      now := t.due;
      timers := RemoveAt(timers, k);
      match t.action
      case AddShow(id) =>
        nodes := SetShow(nodes, id, true);
      case AutoHide(id) =>
        nodes := SetShow(nodes, id, false);
        var _ := SetTimeout(FadeDelay, Detach(id));
      case Detach(id) =>
        nodes := Without(nodes, id);
    }
  }
}
