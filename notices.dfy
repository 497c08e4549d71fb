/** The notification slot behind `showNotification`: at most one notification
    is attached to the page. Every notification gets a fresh id, and each of its
    three callbacks (the close button, the 5-second auto-removal check and the
    removal after the exit animation) is an event naming that id. Timer
    durations are not modelled, only the order in which the callbacks run. */
module Notices {
  import opened Wrappers

  /** Type used when `showNotification` is called without one. */
  const DefaultKind := "info"

  /** A notification element: its message, its type ("error", "success",
      "info", ...) and whether its exit animation has started. */
  datatype Notification = Notification(id: nat, message: string, kind: string, leaving: bool)

  /** The element's class attribute. */
  function ClassName(n: Notification): string {
    "notification notification-" + n.kind
  }

  /** The attached notification, if any, and the next unused id. */
  datatype Slot = Slot(shown: Option<Notification>, nextId: nat)

  /** Ids are handed out in increasing order, so the attached one is older than `nextId`. */
  ghost predicate Valid(s: Slot) {
    s.shown.Some? ==> s.shown.value.id < s.nextId
  }

  /** Whether the element with id `id` is in the document (`parentNode` is set). */
  predicate Attached(s: Slot, id: nat) {
    s.shown.Some? && s.shown.value.id == id
  }

  datatype Event =
    | Show(message: string, kind: string)  // showNotification(message, kind)
    | CloseClick(target: nat)              // the close button of notification `target`
    | AutoTimeout(target: nat)             // the 5000 ms timer of notification `target`
    | FadeDone(target: nat)                // the 300 ms timer started by that one

  /** Effect of one event. Showing removes whatever is attached and attaches a
      new element. The close button and the final timer call `remove()`, which
      does nothing to an element no longer in the document; the auto-removal
      timer first checks that its element is still attached. */
  function Step(s: Slot, e: Event): Slot {
    match e
    case Show(message, kind) => Slot(Some(Notification(s.nextId, message, kind, false)), s.nextId + 1)
    case CloseClick(id) => if Attached(s, id) then Slot(None, s.nextId) else s
    case AutoTimeout(id) => if Attached(s, id) then Slot(Some(s.shown.value.(leaving := true)), s.nextId) else s
    case FadeDone(id) => if Attached(s, id) then Slot(None, s.nextId) else s
  }

  /** Events applied in order. */
  function Run(s: Slot, events: seq<Event>): Slot
    decreases |events|
  {
    if events == [] then s else Run(Step(s, events[0]), events[1..])
  }

  /** Every event keeps ids fresh. */
  lemma StepValid(s: Slot, e: Event)
    requires Valid(s)
    ensures Valid(Step(s, e))
  {
  }

  /** After showing, exactly one notification is attached: the new one, carrying
      the message and type given, with its class derived from the type; the one
      attached before, if any, is gone. */
  lemma ShowReplaces(s: Slot, message: string, kind: string)
    requires Valid(s)
    ensures var t := Step(s, Show(message, kind));
      && t.shown.Some? && t.shown.value.message == message
      && ClassName(t.shown.value) == "notification notification-" + kind
      && !t.shown.value.leaving
      && Attached(t, s.nextId)
      && (s.shown.Some? ==> !Attached(t, s.shown.value.id))
      && Valid(t)
  {
  }

  /** A callback whose notification is not attached does nothing. */
  lemma StaleCallbackIsNoop(s: Slot, e: Event)
    requires !e.Show? && !Attached(s, e.target)
    ensures Step(s, e) == s
  {
  }

  /** A notification that has been removed, by its close button, by its timers
      or by being replaced, is never attached again, whatever happens later. */
  lemma {:induction false} RemovedStaysRemoved(s: Slot, events: seq<Event>, id: nat)
    requires Valid(s) && id < s.nextId && !Attached(s, id)
    ensures !Attached(Run(s, events), id)
    decreases |events|
  {
    if events != [] {
      var t := Step(s, events[0]);
      StepValid(s, events[0]);
      RemovedStaysRemoved(t, events[1..], id);
    }
  }

  /** So every callback of a removed notification that fires later, in any
      interleaving with other events, leaves the slot exactly as it finds it. */
  lemma {:induction false} LateCallbacksAreNoops(s: Slot, events: seq<Event>, k: nat, id: nat)
    requires Valid(s) && id < s.nextId && !Attached(s, id)
    requires k < |events| && !events[k].Show? && events[k].target == id
    ensures Step(Run(s, events[..k]), events[k]) == Run(s, events[..k])
  {
    RemovedStaysRemoved(s, events[..k], id);
  }

  /** Running a sequence of callbacks none of whose targets is attached leaves
      the slot unchanged. */
  lemma {:induction false} StaleCallbacksAreNoops(s: Slot, events: seq<Event>)
    requires forall i :: 0 <= i < |events| ==> !events[i].Show? && !Attached(s, events[i].target)
    ensures Run(s, events) == s
    decreases |events|
  {
    if events != [] {
      assert Step(s, events[0]) == s;
      forall i | 0 <= i < |events[1..]|
        ensures !events[1..][i].Show? && !Attached(s, events[1..][i].target)
      {
        assert events[1..][i] == events[i + 1];
      }
      StaleCallbacksAreNoops(s, events[1..]);
    }
  }

  /** Running `e` first and then `rest`. */
  lemma RunCons(s: Slot, e: Event, rest: seq<Event>)
    ensures Run(s, [e] + rest) == Run(Step(s, e), rest)
  {
    assert ([e] + rest)[1..] == rest;
  }

  /** Running two events. */
  lemma RunTwo(s: Slot, a: Event, b: Event)
    ensures Run(s, [a, b]) == Step(Step(s, a), b)
  {
    RunCons(s, a, [b]);
    RunCons(Step(s, a), b, []);
    assert [a, b] == [a] + [b];
  }

  /** Running two events, then `rest`. */
  lemma RunTwoThen(s: Slot, a: Event, b: Event, rest: seq<Event>)
    ensures Run(s, [a, b] + rest) == Run(Step(Step(s, a), b), rest)
  {
    RunCons(s, a, [b] + rest);
    RunCons(Step(s, a), b, rest);
    assert [a, b] + rest == [a] + ([b] + rest);
  }

  /** Showing one notification and then another leaves only the second (for
      instance an error "x" followed by a success "y"), and the first one's
      timers, when they fire, do not touch it. */
  lemma {:induction false} ReplaceThenStaleTimers(s: Slot, first: string, firstKind: string, second: string, secondKind: string)
    ensures Run(s, [Show(first, firstKind), Show(second, secondKind), AutoTimeout(s.nextId), FadeDone(s.nextId)])
            == Slot(Some(Notification(s.nextId + 1, second, secondKind, false)), s.nextId + 2)
  {
    var id := s.nextId;
    var a, b := Show(first, firstKind), Show(second, secondKind);
    var t := Step(Step(s, a), b);
    assert t == Slot(Some(Notification(id + 1, second, secondKind, false)), id + 2);
    var timers := [AutoTimeout(id), FadeDone(id)];
    RunTwoThen(s, a, b, timers);
    assert [a, b] + timers == [a, b, AutoTimeout(id), FadeDone(id)];
    StaleCallbacksAreNoops(t, timers);
  }

  /** A notification closed by hand is gone at once, and its auto-removal timers
      that fire afterwards change nothing. */
  lemma {:induction false} CloseThenTimers(s: Slot, message: string, kind: string)
    ensures Run(s, [Show(message, kind), CloseClick(s.nextId), AutoTimeout(s.nextId), FadeDone(s.nextId)])
            == Slot(None, s.nextId + 1)
  {
    var id := s.nextId;
    var t := Step(Step(s, Show(message, kind)), CloseClick(id));
    assert t == Slot(None, id + 1);
    var timers := [AutoTimeout(id), FadeDone(id)];
    RunTwoThen(s, Show(message, kind), CloseClick(id), timers);
    assert [Show(message, kind), CloseClick(id)] + timers
        == [Show(message, kind), CloseClick(id), AutoTimeout(id), FadeDone(id)];
    StaleCallbacksAreNoops(t, timers);
  }

  /** Left alone, a notification starts its exit animation at the first timer
      and is removed at the second. */
  lemma {:induction false} AutoRemovalLifecycle(s: Slot, message: string, kind: string)
    ensures Run(s, [Show(message, kind), AutoTimeout(s.nextId)]).shown
            == Some(Notification(s.nextId, message, kind, true))
    ensures Run(s, [Show(message, kind), AutoTimeout(s.nextId), FadeDone(s.nextId)])
            == Slot(None, s.nextId + 1)
  {
    var id := s.nextId;
    RunTwo(s, Show(message, kind), AutoTimeout(id));
    RunTwoThen(s, Show(message, kind), AutoTimeout(id), [FadeDone(id)]);
    RunCons(Step(Step(s, Show(message, kind)), AutoTimeout(id)), FadeDone(id), []);
    assert [Show(message, kind), AutoTimeout(id)] + [FadeDone(id)]
        == [Show(message, kind), AutoTimeout(id), FadeDone(id)];
    assert [FadeDone(id)] + [] == [FadeDone(id)];
  }
}
