/** The epoll dispatcher as it runs: registrations, and batches of events whose callbacks may do
    anything the program may do, another event loop included. */
module EventDispatcher {
  import opened Basics
  import opened EventLifetime

  /** What `epoll_wait` reported for a descriptor. */
  datatype Ready = Ready(readable: bool, writable: bool, urgent: bool, hangup: bool, error: bool)
  {
    predicate Reads() {
      readable || hangup || error
    }

    predicate Writes() {
      writable || hangup || error
    }

    predicate Excepts() {
      urgent || hangup || error
    }
  }

  const QUIET := Ready(false, false, false, false, false)

  function ReadyOf(ready: map<Id, Ready>, id: Id): Ready {
    if id in ready then ready[id] else QUIET
  }

  /** What happened to a batch entry when its turn came: the object as it was then, what was reported for
      it, and the places in the log where the turn began, where its second and third notifiers had theirs,
      and where it ended; and whether a timer was to be started again. */
  datatype Turn = Turn(id: Id, registered: bool, delivered: bool, event: Event, ready: Ready,
                       start: nat, atW: nat, atX: nat, stop: nat, again: bool)

  /** What the log says of a turn. Nothing was sent for an entry that was not delivered. A delivered timer
      was sent its event first, and one with a descriptor was last started again, or not. A delivered socket
      sent each notifier it had, if the kernel had reported its kind, its event in the order read, write,
      exception, if and only if the notifier still existed when its place came. */
  ghost predicate Told(turn: Turn, log: seq<Sent>) {
    && turn.start <= turn.atW <= turn.atX <= turn.stop <= |log|
    && if !turn.delivered then turn.start == turn.stop
       else match turn.event
         case SocketInfo(_, _, r, w, x, _) =>
           && Reached(log, turn.stop, r, turn.ready.Reads(), turn.start)
           && Reached(log, turn.stop, w, turn.ready.Writes(), turn.atW)
           && Reached(log, turn.stop, x, turn.ready.Excepts(), turn.atX)
           && (r.None? || !turn.ready.Reads() ==> turn.atW == turn.start)
           && (w.None? || !turn.ready.Writes() ==> turn.atX == turn.atW)
           && (x.None? || !turn.ready.Excepts() ==> turn.stop == turn.atX)
         case TimerInfo(fd, _, i, _) =>
           && turn.start < turn.atX && log[turn.start] == TimerFired(i)
           && log[turn.atX..turn.stop] == if turn.again then [Rearmed(fd)] else []
         case ZeroTimer(_, i, _, _) => turn.start < turn.stop && log[turn.start] == ZeroTimerFired(i)
  }

  /** A notifier that is there and reported is sent its event at this place of a turn if and only if it had
      not been destroyed before. */
  ghost predicate Reached(log: seq<Sent>, stop: nat, o: Option<Notifier>, active: bool, at: nat)
    requires at <= stop <= |log|
  {
    o.Some? && active ==>
      (Destroyed(o.value) !in log[..at] <==> at < stop && log[at] == Activated(o.value))
  }

  ghost predicate AllTold(turns: seq<Turn>, log: seq<Sent>) {
    forall turn <- turns :: Told(turn, log)
  }

  lemma QuietIsTold(turn: Turn, log: seq<Sent>)
    requires !turn.delivered ==> turn.start == turn.atW == turn.atX == turn.stop <= |log|
    ensures !turn.delivered ==> Told(turn, log)
  {
  }

  lemma StillTold(turns: seq<Turn>, log: seq<Sent>, more: seq<Sent>)
    requires AllTold(turns, log) && log <= more
    ensures AllTold(turns, more)
  {
    forall turn <- turns
      ensures Told(turn, more)
    {
      assert Told(turn, log);
      assert more[..turn.start] == log[..turn.start] && more[..turn.atW] == log[..turn.atW];
      assert more[..turn.atX] == log[..turn.atX] && more[turn.atX..turn.stop] == log[turn.atX..turn.stop];
    }
  }

  lemma NextTold(turns: seq<Turn>, log: seq<Sent>, more: seq<Sent>, turn: Turn)
    requires AllTold(turns, log) && log <= more && Told(turn, more)
    ensures AllTold(turns + [turn], more)
  {
    StillTold(turns, log, more);
  }

  lemma BothTold(turns: seq<Turn>, more: seq<Turn>, log: seq<Sent>, log': seq<Sent>)
    requires AllTold(turns, log) && log <= log' && AllTold(more, log')
    ensures AllTold(turns + more, log')
  {
    StillTold(turns, log, log');
  }

  /** What was sent, and which notifiers the program destroyed in between. */
  datatype Sent =
    | Activated(notifier: Notifier) | TimerFired(timerId: TimerId) | ZeroTimerFired(timerId: TimerId)
    | Rearmed(fd: Fd) | Destroyed(notifier: Notifier)

  /** Nothing is sent to a notifier after its end. */
  ghost predicate NoneAfterEnd(sent: seq<Sent>, destroyed: set<Notifier>) {
    && (forall n :: n in destroyed <==> Destroyed(n) in sent)
    && (forall i, j :: 0 <= i < j < |sent| && sent[i].Destroyed? ==> sent[j] != Activated(sent[i].notifier))
  }

  lemma OneMoreSent(sent: seq<Sent>, destroyed: set<Notifier>, e: Sent)
    requires NoneAfterEnd(sent, destroyed) && (e.Activated? ==> e.notifier !in destroyed)
    ensures NoneAfterEnd(sent + [e], if e.Destroyed? then destroyed + {e.notifier} else destroyed)
  {
    var more := sent + [e];
    var gone := if e.Destroyed? then destroyed + {e.notifier} else destroyed;
    forall n
      ensures n in gone <==> Destroyed(n) in more
    {
      assert Destroyed(n) in more <==> Destroyed(n) in sent || e == Destroyed(n);
    }
    forall i, j | 0 <= i < j < |more| && more[i].Destroyed?
      ensures more[j] != Activated(more[i].notifier)
    {
      assert more[i] == sent[i];
      if j == |sent| {
        assert sent[i] in sent;
      }
    }
  }

  /** In a later log, what stands at a notifier's place tells whether it still existed then. */
  lemma PlaceTells(before: seq<Sent>, destroyed: set<Notifier>, log: seq<Sent>, gone: set<Notifier>, n: Notifier)
    requires NoneAfterEnd(before, destroyed) && NoneAfterEnd(log, gone) && before <= log
    requires n !in destroyed ==> before + [Activated(n)] <= log
    ensures Destroyed(n) !in log[..|before|] <==> |before| < |log| && log[|before|] == Activated(n)
  {
    assert log[..|before|] == before;
    if n in destroyed {
      var i :| 0 <= i < |before| && before[i] == Destroyed(n);
      assert log[i] == Destroyed(n);
    } else {
      assert log[|before|] == (before + [Activated(n)])[|before|];
    }
  }

  predicate SameObject(e: Event, e1: Event) {
    match e
    case SocketInfo(fd, _, _, _, _, _) => e1.SocketInfo? && e1.fd == fd
    case TimerInfo(fd, _, i, owner) => e1.TimerInfo? && e1.fd == fd && e1.timerId == i && e1.owner == owner
    case ZeroTimer(_, i, owner, active) => e1.ZeroTimer? && e1.timerId == i && e1.owner == owner && e1.active == active
  }

  /** The objects that stay alive stay the same objects. */
  predicate Evolves(t: Tables, t1: Tables) {
    forall id <- t.events :: id in t1.events ==> SameObject(t.events[id], t1.events[id])
  }

  ghost predicate Alive(events: map<Id, Event>, events1: map<Id, Event>, ids: multiset<Id>) {
    forall id <- ids :: id in events && id in events1 && SameObject(events[id], events1[id])
  }

  /** A zero timer is inactive exactly while its own event is being sent. */
  ghost predicate Actives(events: map<Id, Event>, inFlight: multiset<Id>, sending: set<Id>) {
    && (forall id <- events :: events[id].ZeroTimer? ==> (events[id].active <==> id !in sending))
    && (forall id <- sending :: id in inFlight)
  }

  lemma ActivesKept(t: Tables, t1: Tables, inFlight: multiset<Id>, sending: set<Id>)
    requires Actives(t.events, inFlight, sending) && Live(t, inFlight) && Evolves(t, t1)
    requires forall id <- t1.events :: id !in t.events && t1.events[id].ZeroTimer? ==> t1.events[id].active
    ensures Actives(t1.events, inFlight, sending)
  {
  }

  lemma FreshObject(t: Tables, t1: Tables, next: Id, freed: seq<Id>)
    requires FreedOnce(t, next, freed) && t1.events.Keys == t.events.Keys + {next}
    ensures FreedOnce(t1, next + 1, freed)
  {
  }

  lemma FreedObject(t: Tables, t1: Tables, next: Id, freed: seq<Id>, id: Id)
    requires FreedOnce(t, next, freed) && id in t.events && t1.events.Keys == t.events.Keys - {id}
    ensures FreedOnce(t1, next, freed + [id])
  {
    assert id !in freed;
  }

  lemma EmptyIsFreedOnce(t: Tables)
    requires t.events == map[]
    ensures FreedOnce(t, 0, [])
  {
    var none: seq<Id> := [];
    assert forall id: Id :: id !in none;
  }

  lemma SameObjects(t: Tables, t1: Tables, next: Id, freed: seq<Id>)
    requires FreedOnce(t, next, freed) && t1.events.Keys == t.events.Keys
    ensures FreedOnce(t1, next, freed)
  {
  }

  lemma AddNotifierEvolves(t: Tables, n: Notifier, next: Id)
    requires SocketFd(t, n.fd) && next !in t.events
    ensures Evolves(t, AddNotifier(t, n, next))
    ensures AddNotifier(t, n, next).events.Keys
            == if n.fd in t.handles then t.events.Keys else t.events.Keys + {next}
    ensures var t1 := AddNotifier(t, n, next);
            next in t1.events ==> t1.events[next].SocketInfo?
  {
    if n.fd in t.handles {
      FilledFacts(t.events[t.handles[n.fd]], n.kind, Some(n));
    }
    FilledFacts(SocketInfo(n.fd, 1, None, None, None, {}), n.kind, Some(n));
    hide Filled, Slot, Slots;
  }

  ghost predicate Live(t: Tables, inFlight: multiset<Id>) {
    forall id <- inFlight :: id in t.events
  }

  lemma SoundIsLive(t: Tables, inFlight: multiset<Id>)
    requires Sound(t, inFlight)
    ensures Live(t, inFlight)
  {
  }

  /** What the invariant says of the objects in flight after a step. */
  lemma SurvivorsAre(t: Tables, t1: Tables, inFlight: multiset<Id>)
    requires Live(t, inFlight) && Live(t1, inFlight) && Evolves(t, t1)
    ensures Alive(t.events, t1.events, inFlight)
  {
  }

  lemma AddNotifierStep(t: Tables, inFlight: multiset<Id>, sending: set<Id>, n: Notifier, next: Id, freed: seq<Id>)
    requires Sound(t, inFlight) && FreedOnce(t, next, freed) && Actives(t.events, inFlight, sending)
    requires SocketFd(t, n.fd)
    ensures var t1 := AddNotifier(t, n, next);
            && Sound(t1, inFlight) && Actives(t1.events, inFlight, sending) && Alive(t.events, t1.events, inFlight)
            && FreedOnce(t1, if n.fd in t.handles then next else next + 1, freed)
  {
    var t1 := AddNotifier(t, n, next);
    AddNotifierKeeps(t, inFlight, n, next);
    AddNotifierEvolves(t, n, next);
    hide EventsHold, EntriesHold, HandlesHold, SocketFd, AddNotifier;
    SoundIsLive(t, inFlight);
    SoundIsLive(t1, inFlight);
    SurvivorsAre(t, t1, inFlight);
    ActivesKept(t, t1, inFlight, sending);
    hide Sound, Actives, Alive, FreedOnce;
    if n.fd in t.handles {
      SameObjects(t, t1, next, freed);
    } else {
      FreshObject(t, t1, next, freed);
    }
  }

  /** The list of the deleted after a dereference. */
  function Freed(t: Tables, id: Id, freed: seq<Id>): seq<Id>
    requires id in t.events
  {
    if t.events[id].refs <= 1 then freed + [id] else freed
  }

  /** After a dereference, whatever else changed but the set of objects. */
  lemma DerefStep(t: Tables, t1: Tables, inFlight: multiset<Id>, sending: set<Id>, next: Id, freed: seq<Id>, id: Id)
    requires Live(t, inFlight) && FreedOnce(t, next, freed) && Actives(t.events, inFlight, sending)
    requires id in t.events && id in t1.events && t1.events.Keys == t.events.Keys
    requires Evolves(t, t1) && t1.events[id].refs == t.events[id].refs && Sound(EventLifetime.Deref(t1, id), inFlight)
    ensures var t2 := EventLifetime.Deref(t1, id);
            && Actives(t2.events, inFlight, sending) && Alive(t.events, t2.events, inFlight)
            && FreedOnce(t2, next, Freed(t, id, freed))
  {
    var t2 := EventLifetime.Deref(t1, id);
    DerefEvolves(t, t1, id);
    hide EventsHold, EntriesHold, HandlesHold, Evolves, EventLifetime.Deref, FreedOnce, Alive, Actives;
    SoundIsLive(t2, inFlight);
    SurvivorsAre(t, t2, inFlight);
    ActivesKept(t, t2, inFlight, sending);
    if t.events[id].refs <= 1 {
      FreedObject(t, t2, next, freed, id);
    } else {
      SameObjects(t, t2, next, freed);
    }
  }

  lemma DerefEvolves(t: Tables, t1: Tables, id: Id)
    requires Evolves(t, t1) && id in t.events && id in t1.events && t1.events.Keys == t.events.Keys
    ensures var t2 := EventLifetime.Deref(t1, id);
            && Evolves(t, t2)
            && t2.events.Keys == if t1.events[id].refs <= 1 then t.events.Keys - {id} else t.events.Keys
  {
    var t2 := EventLifetime.Deref(t1, id);
    forall j <- t.events | j in t2.events
      ensures SameObject(t.events[j], t2.events[j])
    {
      assert SameObject(t.events[j], t1.events[j]);
    }
  }

  lemma EmptiedEvolves(t: Tables, n: Notifier)
    requires n in t.notifiers && t.notifiers[n] in t.events && t.events[t.notifiers[n]].SocketInfo?
    ensures var t1 := Emptied(t, n);
            && t1.events.Keys == t.events.Keys && Evolves(t, t1)
            && t1.events[t.notifiers[n]].refs == t.events[t.notifiers[n]].refs
  {
    FilledFacts(t.events[t.notifiers[n]], n.kind, None);
    hide Filled, Slot, Slots;
  }

  lemma RemoveNotifierStep(t: Tables, inFlight: multiset<Id>, sending: set<Id>, n: Notifier, next: Id, freed: seq<Id>)
    requires Sound(t, inFlight) && FreedOnce(t, next, freed) && Actives(t.events, inFlight, sending)
    requires n in t.notifiers
    ensures NotifierHolds(t, n)
    ensures var t1 := RemoveNotifier(t, n);
            && Sound(t1, inFlight) && Actives(t1.events, inFlight, sending) && Alive(t.events, t1.events, inFlight)
            && FreedOnce(t1, next, Freed(t, t.notifiers[n], freed))
  {
    RemoveNotifierKeeps(t, inFlight, n);
    EmptiedEvolves(t, n);
    SoundIsLive(t, inFlight);
    hide Sound, Actives, Alive, FreedOnce, Emptied, Evolves, Live;
    DerefStep(t, Emptied(t, n), inFlight, sending, next, freed, t.notifiers[n]);
  }

  lemma RemoveTimerStep(t: Tables, inFlight: multiset<Id>, sending: set<Id>, i: TimerId, next: Id, freed: seq<Id>)
    requires Sound(t, inFlight) && FreedOnce(t, next, freed) && Actives(t.events, inFlight, sending)
    requires i in t.timers || i in t.zeroTimers
    ensures TimerFits(t, i)
    ensures var t1 := RemoveTimer(t, i);
            && Sound(t1, inFlight) && Actives(t1.events, inFlight, sending) && Alive(t.events, t1.events, inFlight)
            && FreedOnce(t1, next, Freed(t, if i in t.timers then t.timers[i] else t.zeroTimers[i], freed))
  {
    RemoveTimerKeeps(t, inFlight, i);
    SoundIsLive(t, inFlight);
    hide Sound, Actives, Alive, FreedOnce;
    if i in t.timers {
      DerefStep(t, Stopped(t, i), inFlight, sending, next, freed, t.timers[i]);
    } else {
      DerefStep(t, t.(zeroTimers := t.zeroTimers - {i}), inFlight, sending, next, freed, t.zeroTimers[i]);
    }
  }

  lemma AddObjectStep(t: Tables, t1: Tables, inFlight: multiset<Id>, sending: set<Id>, next: Id, freed: seq<Id>)
    requires Sound(t, inFlight) && FreedOnce(t, next, freed) && Actives(t.events, inFlight, sending)
    requires next in t1.events && t1.events == t.events[next := t1.events[next]] && Sound(t1, inFlight)
    requires t1.events[next].ZeroTimer? ==> t1.events[next].active
    ensures Actives(t1.events, inFlight, sending) && Alive(t.events, t1.events, inFlight)
    ensures FreedOnce(t1, next + 1, freed)
  {
    assert Evolves(t, t1);
    hide EventsHold, EntriesHold, HandlesHold, Evolves;
    SoundIsLive(t, inFlight);
    SoundIsLive(t1, inFlight);
    SurvivorsAre(t, t1, inFlight);
    ActivesKept(t, t1, inFlight, sending);
    FreshObject(t, t1, next, freed);
  }

  lemma AddTimerStep(t: Tables, inFlight: multiset<Id>, sending: set<Id>, i: TimerId, fd: Fd, owner: Owner, next: Id,
                     freed: seq<Id>)
    requires Sound(t, inFlight) && FreedOnce(t, next, freed) && Actives(t.events, inFlight, sending)
    requires fd !in t.handles && i !in t.timers
    ensures var t1 := AddTimer(t, i, fd, owner, next);
            && Sound(t1, inFlight) && Actives(t1.events, inFlight, sending) && Alive(t.events, t1.events, inFlight)
            && FreedOnce(t1, next + 1, freed)
  {
    var t1 := AddTimer(t, i, fd, owner, next);
    AddTimerKeeps(t, inFlight, i, fd, owner, next);
    AddObjectStep(t, t1, inFlight, sending, next, freed);
  }

  lemma AddZeroTimerStep(t: Tables, inFlight: multiset<Id>, sending: set<Id>, i: TimerId, owner: Owner, next: Id,
                         freed: seq<Id>)
    requires Sound(t, inFlight) && FreedOnce(t, next, freed) && Actives(t.events, inFlight, sending)
    requires i !in t.zeroTimers
    ensures var t1 := AddZeroTimer(t, i, owner, next);
            && Sound(t1, inFlight) && Actives(t1.events, inFlight, sending) && Alive(t.events, t1.events, inFlight)
            && FreedOnce(t1, next + 1, freed)
  {
    var t1 := AddZeroTimer(t, i, owner, next);
    AddZeroTimerKeeps(t, inFlight, i, owner, next);
    AddObjectStep(t, t1, inFlight, sending, next, freed);
  }

  class EventDispatcherEPoll {
    /** The objects alive, by address. */
    var events: map<Id, Event>
    var handles: map<Fd, Id>
    var notifiers: map<Notifier, Id>
    var timers: map<TimerId, Id>
    var zeroTimers: map<TimerId, Id>
    /** The kernel's side of `epoll_ctl`. */
    var kernel: map<Fd, Interest>

    /** The next address, and every object deleted so far. */
    var next: Id
    ghost var freed: seq<Id>
    /** The events sent so far, and the notifiers that exist no more. */
    var sent: seq<Sent>
    var destroyed: set<Notifier>
    /** One element for each batch entry that holds a reference, over all the loops under way. */
    ghost var inFlight: multiset<Id>
    /** The zero timers whose event is being sent. */
    ghost var sending: set<Id>

    ghost function Now(): Tables
      reads this
    {
      Tables(events, handles, notifiers, timers, zeroTimers, kernel)
    }

    ghost predicate Valid()
      reads this
    {
      && Sound(Now(), inFlight) && FreedOnce(Now(), next, freed) && Actives(events, inFlight, sending)
      && NoneAfterEnd(sent, destroyed)
    }

    /** Nothing is freed twice, identities are not reused, and these objects are the same and alive. */
    twostate predicate Kept(ids: multiset<Id>)
      reads this
    {
      && old(freed) <= freed && old(next) <= next && old(sent) <= sent && old(destroyed) <= destroyed
      && Alive(old(events), events, ids)
    }

    twostate predicate Undisturbed()
      reads this
    {
      Valid() && inFlight == old(inFlight) && sending == old(sending) && Kept(inFlight)
    }

    constructor ()
      ensures Valid() && inFlight == multiset{} && sending == {} && events == map[] && freed == []
      ensures sent == [] && destroyed == {}
    {
      events, handles, notifiers, timers, zeroTimers, kernel := map[], map[], map[], map[], map[], map[];
      next, freed, sent, destroyed, inFlight, sending := 0, [], [], {}, multiset{}, {};
      new;
      EmptyIsFreedOnce(Now());
    }

    method Ref(id: Id)
      requires id in events
      modifies this`events
      ensures Now() == EventLifetime.Ref(old(Now()), id)
    {
      events := events[id := events[id].(refs := events[id].refs + 1)];
    }

    /** `deref`: the last reference deletes the object. */
    method Deref(id: Id)
      requires id in events && events[id].refs > 0
      modifies this`events, this`freed
      ensures Now() == EventLifetime.Deref(old(Now()), id)
      ensures freed == Freed(old(Now()), id, old(freed))
    {
      var refs := events[id].refs - 1;
      if refs == 0 {
        events := events - {id};
        freed := freed + [id];
      } else {
        events := events[id := events[id].(refs := refs)];
      }
    }

    method RegisterSocketNotifier(n: Notifier)
      requires Valid() && SocketFd(Now(), n.fd)
      modifies this
      ensures Undisturbed() && Now() == AddNotifier(old(Now()), n, old(next))
    {
      hide Sound, FreedOnce, Actives, NoneAfterEnd, Alive, Slot, SocketFd, AddNotifier;
      AddNotifierStep(Now(), inFlight, sending, n, next, freed);
      if n.fd !in handles {
        WatchNew(n);
      } else {
        WatchMore(n);
      }
    }

    /** A descriptor's first notifier. */
    method WatchNew(n: Notifier)
      requires n.fd !in handles
      modifies this`events, this`handles, this`notifiers, this`kernel, this`next
      ensures Now() == AddNotifier(old(Now()), n, old(next)) && next == old(next) + 1
    {
      hide Filled;
      var data := next;
      next := next + 1;
      events := events[data := Filled(SocketInfo(n.fd, 1, None, None, None, {}), n.kind, Some(n))];
      kernel := kernel[n.fd := Interest(data, {n.kind})];
      handles := handles[n.fd := data];
      notifiers := notifiers[n := data];
    }

    /** Another notifier of a descriptor. */
    method WatchMore(n: Notifier)
      requires n.fd in handles && SocketFd(Now(), n.fd)
      modifies this`events, this`notifiers, this`kernel
      ensures Now() == AddNotifier(old(Now()), n, next)
    {
      hide Filled;
      var data := handles[n.fd];
      if Slot(events[data], n.kind).Some? {
        return;
      }
      events := events[data := Filled(events[data], n.kind, Some(n))];
      kernel := kernel[n.fd := Interest(data, events[data].mask)];
      Ref(data);
      notifiers := notifiers[n := data];
    }

    method UnregisterSocketNotifier(n: Notifier)
      requires Valid()
      modifies this
      ensures Undisturbed()
      ensures old(n !in notifiers) ==> Now() == old(Now())
      ensures old(n in notifiers) ==> old(NotifierHolds(Now(), n)) && Now() == RemoveNotifier(old(Now()), n)
      ensures n !in notifiers && sent == old(sent) && destroyed == old(destroyed)
    {
      hide Sound, FreedOnce, Actives, NoneAfterEnd, Alive, RemoveNotifier, NotifierHolds;
      NothingDone(Now(), inFlight);
      if n in notifiers {
        RemoveNotifierStep(Now(), inFlight, sending, n, next, freed);
        NotifierIsLive(Now(), inFlight, n);
        TakeOut(n);
      }
    }

    method TakeOut(n: Notifier)
      requires n in notifiers && NotifierHolds(Now(), n)
      requires events[notifiers[n]].refs > 0 && KindsFit(events[notifiers[n]])
      modifies this`events, this`handles, this`notifiers, this`kernel, this`freed
      ensures Now() == RemoveNotifier(old(Now()), n) && n !in notifiers
      ensures freed == Freed(old(Now()), old(notifiers)[n], old(freed))
    {
      var info := notifiers[n];
      events := events[info := WithoutNotifier(events[info], n)];
      if events[info].r.Some? || events[info].w.Some? || events[info].x.Some? {
        kernel := kernel[events[info].fd := Interest(info, events[info].mask)];
      } else {
        kernel := kernel - {events[info].fd};
        handles := handles - {events[info].fd};
      }
      notifiers := notifiers - {n};
      Deref(info);
    }

    /** A notifier that is destroyed unregisters itself first, and nothing is sent to it any more. */
    method DestroyNotifier(n: Notifier)
      requires Valid()
      modifies this
      ensures Undisturbed() && n in destroyed
      ensures n !in old(destroyed) ==> sent == old(sent) + [Destroyed(n)] && n !in notifiers
    {
      hide Sound, FreedOnce, Actives, NoneAfterEnd, Alive, RemoveNotifier;
      NothingDone(Now(), inFlight);
      if n !in destroyed {
        UnregisterSocketNotifier(n);
        OneMoreSent(sent, destroyed, Destroyed(n));
        destroyed := destroyed + {n};
        sent := sent + [Destroyed(n)];
      }
    }

    method RegisterTimer(i: TimerId, fd: Fd, owner: Owner)
      requires Valid() && fd !in handles && i !in timers
      modifies this
      ensures Undisturbed() && Now() == AddTimer(old(Now()), i, fd, owner, old(next))
    {
      hide Sound, FreedOnce, Actives, NoneAfterEnd, Alive, AddTimer;
      AddTimerStep(Now(), inFlight, sending, i, fd, owner, next, freed);
      WatchTimer(i, fd, owner);
    }

    method WatchTimer(i: TimerId, fd: Fd, owner: Owner)
      modifies this`events, this`handles, this`timers, this`kernel, this`next
      ensures Now() == AddTimer(old(Now()), i, fd, owner, old(next)) && next == old(next) + 1
    {
      var data := next;
      next := next + 1;
      events := events[data := TimerInfo(fd, 1, i, owner)];
      kernel := kernel[fd := Interest(data, {Read})];
      timers := timers[i := data];
      handles := handles[fd := data];
    }

    method RegisterZeroTimer(i: TimerId, owner: Owner)
      requires Valid() && i !in zeroTimers
      modifies this
      ensures Undisturbed() && Now() == AddZeroTimer(old(Now()), i, owner, old(next))
    {
      hide Sound, FreedOnce, Actives, NoneAfterEnd, Alive;
      AddZeroTimerStep(Now(), inFlight, sending, i, owner, next, freed);
      var data := next;
      next := next + 1;
      events := events[data := ZeroTimer(1, i, owner, true)];
      zeroTimers := zeroTimers[i := data];
    }

    method UnregisterTimer(i: TimerId) returns (found: bool)
      requires Valid()
      modifies this
      ensures Undisturbed() && found == old(i in timers || i in zeroTimers)
      ensures old(TimerFits(Now(), i)) && Now() == RemoveTimer(old(Now()), i)
    {
      hide Sound, FreedOnce, Actives, NoneAfterEnd, Alive, RemoveTimer, TimerFits, TimerCounts;
      TimerIsLive(Now(), inFlight, i);
      NothingDone(Now(), inFlight);
      found := i in timers || i in zeroTimers;
      if found {
        RemoveTimerStep(Now(), inFlight, sending, i, next, freed);
        StopOne(i);
      }
    }

    method StopOne(i: TimerId)
      requires i in timers || i in zeroTimers
      requires TimerFits(Now(), i) && TimerCounts(Now(), i)
      modifies this`events, this`handles, this`timers, this`zeroTimers, this`kernel, this`freed
      ensures Now() == RemoveTimer(old(Now()), i)
      ensures freed == Freed(old(Now()), old(if i in timers then timers[i] else zeroTimers[i]), old(freed))
    {
      if i in timers {
        var data := timers[i];
        var fd := events[data].fd;
        kernel := kernel - {fd};
        Deref(data);
        timers := timers - {i};
        handles := handles - {fd};
      } else {
        var data := zeroTimers[i];
        Deref(data);
        zeroTimers := zeroTimers - {i};
      }
    }

    // ----- Batches -----------------------------------------------------------------------------

    /** A reference for every entry of a batch, before any is looked at. */
    method HoldAll(ids: map<nat, Id>) returns (batch: seq<Id>)
      requires Valid() && OneEach(ids) && forall k <- ids :: ids[k] in events
      modifies this`events, this`inFlight
      ensures Valid() && Kept(old(inFlight)) && Distinct(batch)
      ensures inFlight == old(inFlight) + multiset(batch)
      ensures forall id :: id in batch <==> id in ids.Values
    {
      hide Alive, OneEach, Distinct, Valid, HeldSoFar;
      batch := [];
      var left := ids;
      Settled();
      NoneHeld(ids);
      while left != map[]
        invariant Valid() && Kept(old(inFlight)) && inFlight == old(inFlight) + multiset(batch)
        invariant events.Keys == old(events).Keys && HeldSoFar(ids, left, batch)
        decreases |left|
      {
        var k :| k in left;
        ghost var before, held := events, inFlight;
        HeldOneMore(ids, left, batch, k);
        MultisetAppend(batch, left[k]);
        HoldOne(left[k]);
        StillAlive(old(events), before, events, old(inFlight), held);
        batch := batch + [left[k]];
        left := left - {k};
      }
      AllHeld(ids, left, batch);
    }

    method HoldOne(id: Id)
      requires Valid() && id in events
      modifies this`events, this`inFlight
      ensures Valid() && inFlight == old(inFlight) + multiset{id}
      ensures events.Keys == old(events).Keys && Alive(old(events), events, old(inFlight))
    {
      hide Sound, FreedOnce, Actives, NoneAfterEnd, Alive, EventLifetime.Ref;
      RefStep(Now(), inFlight, sending, next, freed, id);
      Ref(id);
      inFlight := inFlight + multiset{id};
    }

    lemma Settled()
      requires Valid()
      ensures Alive(events, events, inFlight) && forall id <- sending :: id in inFlight
    {
      NothingDone(Now(), inFlight);
    }

    /** The use of a batch entry ends. */
    method Drop(id: Id)
      requires Valid() && inFlight[id] > 0 && (id in sending ==> inFlight[id] > 1)
      modifies this`events, this`freed, this`inFlight
      ensures Valid() && inFlight == old(inFlight) - multiset{id} && Kept(inFlight)
    {
      hide Sound, FreedOnce, Actives, NoneAfterEnd, Alive, EventLifetime.Deref, Freed;
      DropStep(Now(), inFlight, sending, next, freed, id);
      Deref(id);
      inFlight := inFlight - multiset{id};
    }

    /** What a callback may do: anything the program does, in any order. A loop inside a callback goes
        one level deeper; `depth`, arbitrary, bounds how deep this run goes. */
    method Callback(depth: nat)
      requires Valid()
      modifies this
      ensures Undisturbed()
      decreases depth, 0
    {
      hide Sound, FreedOnce, Actives, NoneAfterEnd, Alive;
      NothingDone(Now(), inFlight);
      var steps: nat := *;
      while steps > 0
        invariant Undisturbed()
      {
        ghost var before := events;
        var what: nat := *;
        if what == 0 && depth > 0 {
          var wait: bool := *;
          var processed, turns := ProcessEvents(depth - 1, wait);
        } else {
          Act(what);
        }
        StillAlive(old(events), before, events, inFlight, inFlight);
        steps := steps - 1;
      }
    }

    /** One registration or its end. A descriptor or a timer identity in use is not given out again. */
    method Act(what: nat)
      requires Valid()
      modifies this
      ensures Undisturbed()
    {
      hide Sound, FreedOnce, Actives, NoneAfterEnd, Alive, AddNotifier, RemoveNotifier, AddTimer, AddZeroTimer,
           RemoveTimer;
      NothingDone(Now(), inFlight);
      SocketFds(Now(), inFlight);
      var n: Notifier := *;
      var i: TimerId := *;
      var fd: Fd := *;
      var owner: Owner := *;
      if what == 1 && n !in destroyed && (n.fd in handles ==> events[handles[n.fd]].SocketInfo?) {
        RegisterSocketNotifier(n);
      } else if what == 2 {
        UnregisterSocketNotifier(n);
      } else if what == 3 && fd !in handles && i !in timers {
        RegisterTimer(i, fd, owner);
      } else if what == 4 && i !in zeroTimers {
        RegisterZeroTimer(i, owner);
      } else if what == 5 {
        var found := UnregisterTimer(i);
      } else if what == 6 {
        DestroyNotifier(n);
      }
    }

    /** `processEvents`: the dispatcher wakes up and delivers what was posted, then there are the two
        batches. Outside any other loop, an entry is delivered if and only if it is still registered
        when its turn comes. */
    method ProcessEvents(depth: nat, wait: bool) returns (processed: bool, ghost turns: seq<Turn>)
      requires Valid()
      modifies this
      ensures Undisturbed()
      ensures old(inFlight) == multiset{} ==> AsRegistered(turns)
      ensures AllTold(turns, sent)
      ensures AnyDelivered(turns) ==> processed
      ensures processed ==> turns != []
      decreases depth, 9
    {
      hide Valid, Alive;
      Callback(depth);
      ghost var middle := events;
      processed, turns := ProcessBatches(depth, wait);
      StillAlive(old(events), middle, events, inFlight, inFlight);
    }

    /** The zero timers, then what the kernel reports, any of the watched descriptors in any order. Before
        it may block, the dispatcher says so. Every zero timer gets its turn. */
    method ProcessBatches(depth: nat, wait: bool) returns (processed: bool, ghost turns: seq<Turn>)
      requires Valid()
      modifies this
      ensures Undisturbed()
      ensures old(inFlight) == multiset{} ==> AsRegistered(turns)
      ensures forall i <- old(zeroTimers) :: exists turn <- turns :: turn.id == old(zeroTimers)[i]
      ensures AllTold(turns, sent)
      ensures AnyDelivered(turns) ==> processed
      ensures processed ==> turns != []
      decreases depth, 8, 1
    {
      hide Valid, Alive, AnyDelivered, AsRegistered, AllTold;
      processed, turns := ProcessZeroTimers(depth);
      ghost var middle, log := events, sent;
      if wait && !processed {
        Callback(depth);
        StillAlive(old(events), middle, events, inFlight, inFlight);
        middle := events;
      }
      var any, more := ProcessReported(depth);
      StillAlive(old(events), middle, events, inFlight, inFlight);
      TurnsStay(turns, more);
      BothTold(turns, more, log, sent);
      processed := processed || any;
      turns := turns + more;
    }

    method ProcessZeroTimers(depth: nat) returns (delivered: bool, ghost turns: seq<Turn>)
      requires Valid()
      modifies this
      ensures Undisturbed() && (old(inFlight) == multiset{} ==> AsRegistered(turns))
      ensures forall i <- old(zeroTimers) :: exists turn <- turns :: turn.id == old(zeroTimers)[i]
      ensures (delivered <==> AnyDelivered(turns)) && AllTold(turns, sent)
      decreases depth, 8, 0
    {
      hide Sound, FreedOnce, Actives, NoneAfterEnd, Alive, OneEach, AnyDelivered, AsRegistered;
      TimersAreOneEach(Now(), inFlight);
      delivered, turns := Batch(zeroTimers, map[], depth);
    }

    method ProcessReported(depth: nat) returns (any: bool, ghost turns: seq<Turn>)
      requires Valid()
      modifies this
      ensures Undisturbed() && (old(inFlight) == multiset{} ==> AsRegistered(turns))
      ensures (any <==> turns != []) && AllTold(turns, sent)
      decreases depth, 8, 0
    {
      hide Sound, FreedOnce, Actives, NoneAfterEnd, Alive, OneEach, AnyDelivered, AsRegistered;
      var waiting: map<Fd, Ready> := *;
      KernelIsOneEach(Now(), inFlight, waiting.Keys);
      var reported := map fd | fd in kernel && fd in waiting.Keys :: kernel[fd].ptr;
      var ready := ByObject(reported, waiting);
      var delivered;
      delivered, turns := Batch(reported, ready, depth);
      any := reported != map[];
    }

    /** The reports by the objects they point to. */
    method ByObject(reported: map<Fd, Id>, waiting: map<Fd, Ready>) returns (ready: map<Id, Ready>)
      requires OneEach(reported) && forall fd <- reported :: fd in waiting
      ensures forall fd <- reported :: reported[fd] in ready && ready[reported[fd]] == waiting[fd]
    {
      ready := map[];
      var left := reported.Keys;
      while left != {}
        invariant left <= reported.Keys
        invariant forall fd <- reported.Keys - left :: reported[fd] in ready && ready[reported[fd]] == waiting[fd]
        decreases left
      {
        var fd :| fd in left;
        ready := ready[reported[fd] := waiting[fd]];
        left := left - {fd};
      }
    }

    method Batch(ids: map<nat, Id>, ready: map<Id, Ready>, depth: nat) returns (delivered: bool, ghost turns: seq<Turn>)
      requires Valid() && OneEach(ids) && forall k <- ids :: ids[k] in events
      modifies this
      ensures Undisturbed()
      ensures old(inFlight) == multiset{} ==> AsRegistered(turns)
      ensures forall k <- ids :: exists turn <- turns :: turn.id == ids[k]
      ensures (delivered <==> AnyDelivered(turns)) && (turns == [] <==> ids == map[])
      ensures AllTold(turns, sent) && forall turn <- turns :: turn.ready == ReadyOf(ready, turn.id)
      decreases depth, 7
    {
      hide Valid, Alive, OneEach, Distinct;
      Settled();
      var batch := HoldAll(ids);
      ghost var middle := events;
      delivered, turns := Serve(batch, ready, old(inFlight), depth);
      StillAlive(old(events), middle, events, inFlight, inFlight);
      EachHasItsTurn(ids, batch, turns);
    }

    /** The entries of a batch, one by one. */
    method Serve(batch: seq<Id>, ready: map<Id, Ready>, ghost base: multiset<Id>, depth: nat)
      returns (delivered: bool, ghost turns: seq<Turn>)
      requires Valid() && inFlight == base + multiset(batch) && Distinct(batch)
      requires forall id <- sending :: id in base
      modifies this
      ensures Valid() && inFlight == base && sending == old(sending) && Kept(base)
      ensures |turns| == |batch| && InOrder(turns, batch)
      ensures base == multiset{} ==> AsRegistered(turns)
      ensures delivered <==> AnyDelivered(turns)
      ensures AllTold(turns, sent) && forall turn <- turns :: turn.ready == ReadyOf(ready, turn.id)
      decreases depth, 6
    {
      hide Valid, Alive, Distinct, Rest, AnyDelivered, AsRegistered, InOrder, AllTold, Told, ReadyOf;
      NoTurns();
      Settled();
      AliveLess(events, events, base, inFlight);
      delivered, turns := false, [];
      RestEnds(batch);
      for i := 0 to |batch|
        invariant Valid() && inFlight == base + Rest(batch, i) && sending == old(sending) && Kept(base)
        invariant |turns| == i && InOrder(turns, batch)
        invariant base == multiset{} ==> AsRegistered(turns)
        invariant delivered <==> AnyDelivered(turns)
        invariant AllTold(turns, sent) && forall turn <- turns :: turn.ready == ReadyOf(ready, turn.id)
      {
        RestOf(batch, i);
        ghost var before, log := events, sent;
        ghost var turn;
        var can;
        can, turn := TakeTurn(batch[i], ReadyOf(ready, batch[i]), depth);
        NextTold(turns, log, sent, turn);
        StillAlive(old(events), before, events, base, inFlight);
        OneTurnMore(turns, turn);
        NextInOrder(turns, batch, turn);
        turns := turns + [turn];
        delivered := delivered || can;
      }
    }

    /** One entry: processed if it can be, then dropped. It can be if and only if it is registered, or
        another batch holds it too; a zero timer only if its event is not already being sent. */
    method TakeTurn(id: Id, ready: Ready, depth: nat) returns (delivered: bool, ghost turn: Turn)
      requires Valid() && inFlight[id] > 0 && (id in sending ==> inFlight[id] > 1)
      modifies this
      ensures Valid() && inFlight == old(inFlight) - multiset{id} && sending == old(sending) && Kept(inFlight)
      ensures id in old(events) && turn.id == id && turn.registered == (Registrations(old(Now()), id) > 0)
      ensures delivered == turn.delivered
      ensures turn.delivered <==> (turn.registered || old(inFlight)[id] > 1)
                                  && (old(events)[id].ZeroTimer? ==> id !in sending)
      ensures turn.event == old(events)[id] && turn.ready == ready && turn.start == |old(sent)| && turn.stop == |sent|
      ensures Told(turn, sent)
      ensures delivered && turn.event.TimerInfo? ==> (turn.again <==> Runs(turn.event.timerId, id) || inFlight[id] > 0)
      decreases depth, 5
    {
      hide Valid, Alive, Registrations, Told;
      TurnNow(id);
      Settled();
      var e := events[id];
      var can := e.refs > 1;
      delivered := can && (e.ZeroTimer? ==> e.active);
      ghost var registered := Registrations(Now(), id) > 0;
      ghost var atW, atX, again := |sent|, |sent|, false;
      if delivered {
        atW, atX, again := Process(id, ready, registered, depth);
      }
      turn := Turn(id, registered, delivered, e, ready, |old(sent)|, atW, atX, |sent|, again);
      QuietIsTold(turn, sent);
      ghost var before := events;
      Drop(id);
      AliveLess(old(events), before, inFlight, old(inFlight));
      StillAlive(old(events), before, events, inFlight, inFlight);
    }

    lemma TurnNow(id: Id)
      requires Valid() && inFlight[id] > 0
      ensures id in events && (events[id].refs > 1 <==> Registrations(Now(), id) > 0 || inFlight[id] > 1)
      ensures events[id].ZeroTimer? ==> (events[id].active <==> id !in sending)
    {
      hide Sound, Actives, Registrations;
      TurnFacts(Now(), inFlight, sending, id);
    }

    /** The timer of this identity is this object's. */
    predicate Runs(i: TimerId, id: Id)
      reads this`timers
    {
      i in timers && timers[i] == id
    }

    method Process(id: Id, ready: Ready, ghost registered: bool, depth: nat)
      returns (ghost atW: nat, ghost atX: nat, ghost again: bool)
      requires Valid() && inFlight[id] > 0 && id in events && (events[id].ZeroTimer? ==> id !in sending)
      modifies this
      ensures Undisturbed()
      ensures Told(Turn(id, registered, true, old(events)[id], ready, |old(sent)|, atW, atX, |sent|, again), sent)
      ensures old(events)[id].TimerInfo? ==> (again <==> Runs(old(events)[id].timerId, id) || inFlight[id] > 1)
      decreases depth, 4
    {
      hide Valid, Alive;
      atW, atX, again := |sent|, |sent|, false;
      match events[id]
      case SocketInfo(_, _, r, w, x, _) => atW, atX := ProcessSocket(r, w, x, ready, depth);
      case TimerInfo(_, _, _, _) => atX, again := ProcessTimer(id, depth);
      case ZeroTimer(_, _, _, _) => ProcessZeroTimer(id, depth);
    }

    /** After its event a timer is started again, unless it was stopped meanwhile and no other batch holds
        it; `after` is the place in the log where that is decided. */
    method ProcessTimer(id: Id, depth: nat) returns (ghost after: nat, ghost again: bool)
      requires Valid() && inFlight[id] > 0 && id in events && events[id].TimerInfo?
      modifies this
      ensures Undisturbed() && old(sent) + [TimerFired(old(events)[id].timerId)] <= sent
      ensures id in events && (again <==> Runs(old(events)[id].timerId, id) || inFlight[id] > 1)
      ensures |old(sent)| < after <= |sent| && sent[after..] == if again then [Rearmed(old(events)[id].fd)] else []
      decreases depth, 2
    {
      hide Sound, FreedOnce, Actives, NoneAfterEnd;
      Send(TimerFired(events[id].timerId));
      Callback(depth);
      assert id in inFlight;
      CanProcess(Now(), inFlight, id);
      after, again := |sent|, events[id].refs > 1;
      if events[id].refs > 1 {
        Send(Rearmed(events[id].fd));
      }
    }

    /** `QCoreApplication::sendEvent`, or the timer started again. */
    method Send(e: Sent)
      requires Valid() && !e.Destroyed? && (e.Activated? ==> e.notifier !in destroyed)
      modifies this`sent
      ensures Valid() && sent == old(sent) + [e]
    {
      hide Sound, FreedOnce, Actives, NoneAfterEnd;
      OneMoreSent(sent, destroyed, e);
      sent := sent + [e];
    }

    /** The notifiers the object had when its turn came, those the kernel reported, one after the other:
        each is sent its event if and only if it still exists when its place comes, at `atW` and `atX` for
        the second and the third. */
    method ProcessSocket(r: Option<Notifier>, w: Option<Notifier>, x: Option<Notifier>, ready: Ready, depth: nat)
      returns (ghost atW: nat, ghost atX: nat)
      requires Valid()
      modifies this
      ensures Undisturbed() && |old(sent)| <= atW <= atX <= |sent|
      ensures Reached(sent, |sent|, r, ready.Reads(), |old(sent)|)
      ensures Reached(sent, |sent|, w, ready.Writes(), atW) && Reached(sent, |sent|, x, ready.Excepts(), atX)
      ensures !(r.Some? && ready.Reads()) ==> atW == |old(sent)|
      ensures !(w.Some? && ready.Writes()) ==> atX == atW
      ensures !(x.Some? && ready.Excepts()) ==> |sent| == atX
      decreases depth, 3
    {
      var readActive := ready.readable || ready.hangup || ready.error;
      var writeActive := ready.writable || ready.hangup || ready.error;
      var exceptionActive := ready.urgent || ready.hangup || ready.error;
      atW, atX := ActivateAll(r, w, x, readActive, writeActive, exceptionActive, depth);
    }

    method ActivateAll(r: Option<Notifier>, w: Option<Notifier>, x: Option<Notifier>,
                       readActive: bool, writeActive: bool, exceptionActive: bool, depth: nat)
      returns (ghost atW: nat, ghost atX: nat)
      requires Valid()
      modifies this
      ensures Undisturbed() && |old(sent)| <= atW <= atX <= |sent|
      ensures Reached(sent, |sent|, r, readActive, |old(sent)|)
      ensures Reached(sent, |sent|, w, writeActive, atW) && Reached(sent, |sent|, x, exceptionActive, atX)
      ensures !(r.Some? && readActive) ==> atW == |old(sent)|
      ensures !(w.Some? && writeActive) ==> atX == atW
      ensures !(x.Some? && exceptionActive) ==> |sent| == atX
      decreases depth, 2
    {
      hide Valid, Alive, NoneAfterEnd, Reached;
      ghost var e0, s0, d0 := events, sent, destroyed;
      LogHolds();
      Activate(r, readActive, depth);
      ghost var e1, s1, d1 := events, sent, destroyed;
      LogHolds();
      atW := |sent|;
      Activate(w, writeActive, depth);
      StillAlive(e0, e1, events, inFlight, inFlight);
      ghost var e2, s2, d2 := events, sent, destroyed;
      LogHolds();
      atX := |sent|;
      Activate(x, exceptionActive, depth);
      StillAlive(e0, e2, events, inFlight, inFlight);
      LogHolds();
      Place(s0, d0, r, readActive);
      Place(s1, d1, w, writeActive);
      Place(s2, d2, x, exceptionActive);
    }

    lemma LogHolds()
      requires Valid()
      ensures NoneAfterEnd(sent, destroyed)
    {
    }

    lemma Place(before: seq<Sent>, gone: set<Notifier>, o: Option<Notifier>, active: bool)
      requires NoneAfterEnd(before, gone) && NoneAfterEnd(sent, destroyed) && before <= sent
      requires o.Some? && active && o.value !in gone ==> before + [Activated(o.value)] <= sent
      ensures Reached(sent, |sent|, o, active, |before|)
    {
      if o.Some? && active {
        PlaceTells(before, gone, sent, destroyed, o.value);
      }
    }

    method Activate(o: Option<Notifier>, active: bool, depth: nat)
      requires Valid()
      modifies this
      ensures Undisturbed()
      ensures if o.Some? && active && o.value !in old(destroyed) then old(sent) + [Activated(o.value)] <= sent
              else sent == old(sent)
      decreases depth, 1
    {
      hide Sound, FreedOnce, Actives, NoneAfterEnd, Alive;
      Settled();
      if o.Some? && active && o.value !in destroyed {
        Send(Activated(o.value));
        Callback(depth);
      }
    }

    /** A zero timer is inactive while its event is being sent. */
    method ProcessZeroTimer(id: Id, depth: nat)
      requires Valid() && inFlight[id] > 0 && id !in sending && id in events && events[id].ZeroTimer?
      modifies this
      ensures Undisturbed() && old(sent) + [ZeroTimerFired(old(events)[id].timerId)] <= sent
      decreases depth, 2
    {
      hide Sound, FreedOnce, Actives, NoneAfterEnd, Alive;
      MarkStep(Now(), inFlight, sending, next, freed, id);
      events := events[id := events[id].(active := false)];
      ghost var marked := events;
      sending := sending + {id};
      Send(ZeroTimerFired(events[id].timerId));
      Callback(depth);
      ZeroStays(marked, Now(), inFlight, sending, id);
      UnmarkStep(old(events), marked, Now(), inFlight, sending, next, freed, id);
      if !events[id].active {
        events := events[id := events[id].(active := true)];
      }
      sending := sending - {id};
    }
  }

  lemma AliveAll(t: Tables, inFlight: multiset<Id>)
    requires Sound(t, inFlight)
    ensures forall id <- t.events :: t.events[id].refs > 0
  {
    assert forall id <- t.events :: RefHolds(t, inFlight, id);
  }

  lemma NothingDone(t: Tables, inFlight: multiset<Id>)
    requires Sound(t, inFlight)
    ensures Alive(t.events, t.events, inFlight)
  {
  }

  lemma NotifierIsLive(t: Tables, inFlight: multiset<Id>, n: Notifier)
    requires Sound(t, inFlight) && n in t.notifiers
    ensures NotifierHolds(t, n) && t.events[t.notifiers[n]].refs > 0 && KindsFit(t.events[t.notifiers[n]])
  {
    assert NotifierHolds(t, n) && RefHolds(t, inFlight, t.notifiers[n]);
    SlotKinds(t, t.notifiers[n]);
  }

  predicate TimerCounts(t: Tables, i: TimerId)
    requires TimerFits(t, i)
  {
    && (i in t.timers ==> t.events[t.timers[i]].refs > 0)
    && (i in t.zeroTimers ==> t.events[t.zeroTimers[i]].refs > 0)
  }

  lemma TimerIsLive(t: Tables, inFlight: multiset<Id>, i: TimerId)
    requires Sound(t, inFlight)
    ensures TimerFits(t, i) && TimerCounts(t, i)
    ensures i !in t.timers && i !in t.zeroTimers ==> RemoveTimer(t, i) == t
  {
    TimersOfEntries(t, i);
    AliveAll(t, inFlight);
  }

  /** The slot that holds the notifier is cleared, whichever it is. */
  function WithoutNotifier(e: Event, n: Notifier): (e1: Event)
    requires e.SocketInfo? && Slot(e, n.kind) == Some(n) && KindsFit(e)
    ensures e1 == Filled(e, n.kind, None)
  {
    if e.r == Some(n) then e.(mask := e.mask - {Read}, r := None)
    else if e.w == Some(n) then e.(mask := e.mask - {Write}, w := None)
    else if e.x == Some(n) then e.(mask := e.mask - {Exception}, x := None)
    else assert false; e
  }

  predicate AnyDelivered(turns: seq<Turn>) {
    exists turn <- turns :: turn.delivered
  }

  /** The entries delivered are those that were registered when their turn came. */
  predicate AsRegistered(turns: seq<Turn>) {
    forall turn <- turns :: turn.delivered <==> turn.registered
  }

  lemma TurnsStay(turns: seq<Turn>, more: seq<Turn>)
    ensures forall turn <- turns :: turn in turns + more
    ensures AnyDelivered(turns + more) <==> AnyDelivered(turns) || AnyDelivered(more)
    ensures AsRegistered(turns + more) <==> AsRegistered(turns) && AsRegistered(more)
    ensures (AnyDelivered(turns) ==> turns != []) && (AnyDelivered(more) ==> more != [])
  {
    forall turn <- turns
      ensures turn in turns + more
    {
    }
    forall turn <- more
      ensures turn in turns + more
    {
    }
  }

  /** The turns taken so far are those of the first entries. */
  predicate InOrder(turns: seq<Turn>, batch: seq<Id>) {
    |turns| <= |batch| && forall k :: 0 <= k < |turns| ==> turns[k].id == batch[k]
  }

  lemma NextInOrder(turns: seq<Turn>, batch: seq<Id>, turn: Turn)
    requires InOrder(turns, batch) && |turns| < |batch| && turn.id == batch[|turns|]
    ensures InOrder(turns + [turn], batch)
  {
  }

  lemma NoTurns()
    ensures !AnyDelivered([]) && AsRegistered([]) && (forall log :: AllTold([], log))
    ensures forall batch: seq<Id> :: InOrder([], batch)
  {
  }

  lemma OneTurnMore(turns: seq<Turn>, turn: Turn)
    ensures AnyDelivered(turns + [turn]) <==> AnyDelivered(turns) || turn.delivered
    ensures AsRegistered(turns + [turn]) <==> AsRegistered(turns) && (turn.delivered <==> turn.registered)
  {
    var all := turns + [turn];
    assert turn in all && forall t <- turns :: t in all;
  }

  lemma EachHasItsTurn(ids: map<nat, Id>, batch: seq<Id>, turns: seq<Turn>)
    requires forall id :: id in batch <==> id in ids.Values
    requires |turns| == |batch| && InOrder(turns, batch)
    ensures forall k <- ids :: exists turn <- turns :: turn.id == ids[k]
    ensures turns == [] <==> ids == map[]
  {
    if batch != [] {
      assert batch[0] in batch;
    }
    forall k <- ids
      ensures exists turn <- turns :: turn.id == ids[k]
    {
      assert ids[k] in batch;
      var i :| 0 <= i < |batch| && batch[i] == ids[k];
      assert turns[i] in turns && turns[i].id == ids[k];
    }
  }

  /** Different keys lead to different objects. */
  predicate OneEach(ids: map<nat, Id>) {
    forall k, l :: k in ids && l in ids && ids[k] == ids[l] ==> k == l
  }

  predicate Distinct(batch: seq<Id>) {
    forall i, j :: 0 <= i < j < |batch| ==> batch[i] != batch[j]
  }

  ghost predicate HeldSoFar(ids: map<nat, Id>, left: map<nat, Id>, batch: seq<Id>) {
    && Distinct(batch)
    && (forall k <- left :: k in ids && left[k] == ids[k] && left[k] !in batch)
    && (forall k <- ids :: k in left || ids[k] in batch)
    && (forall id <- batch :: id in ids.Values)
  }

  lemma NoneHeld(ids: map<nat, Id>)
    ensures HeldSoFar(ids, ids, [])
  {
  }

  lemma HeldOneMore(ids: map<nat, Id>, left: map<nat, Id>, batch: seq<Id>, k: nat)
    requires HeldSoFar(ids, left, batch) && k in left && OneEach(ids)
    ensures k in ids && left[k] == ids[k] && HeldSoFar(ids, left - {k}, batch + [left[k]])
  {
  }

  lemma AllHeld(ids: map<nat, Id>, left: map<nat, Id>, batch: seq<Id>)
    requires HeldSoFar(ids, left, batch) && left == map[]
    ensures Distinct(batch) && forall id :: id in batch <==> id in ids.Values
  {
  }

  lemma MultisetAppend(batch: seq<Id>, id: Id)
    ensures multiset(batch + [id]) == multiset(batch) + multiset{id}
  {
  }

  lemma StillAlive(e0: map<Id, Event>, e1: map<Id, Event>, e2: map<Id, Event>, ids: multiset<Id>, more: multiset<Id>)
    requires Alive(e0, e1, ids) && Alive(e1, e2, more) && ids <= more
    ensures Alive(e0, e2, ids)
  {
    assert forall id <- ids :: id in more;
  }

  lemma RefStep(t: Tables, inFlight: multiset<Id>, sending: set<Id>, next: Id, freed: seq<Id>, id: Id)
    requires Sound(t, inFlight) && FreedOnce(t, next, freed) && Actives(t.events, inFlight, sending) && id in t.events
    ensures var t1 := EventLifetime.Ref(t, id);
            && Sound(t1, inFlight + multiset{id}) && FreedOnce(t1, next, freed) && t1.events.Keys == t.events.Keys
            && Actives(t1.events, inFlight + multiset{id}, sending) && Alive(t.events, t1.events, inFlight)
  {
    var t1 := EventLifetime.Ref(t, id);
    RefKeeps(t, inFlight, id);
    SameObjects(t, t1, next, freed);
    hide EventsHold, EntriesHold, HandlesHold, FreedOnce;
  }

  lemma FewerInFlight(t: Tables, inFlight: multiset<Id>, sending: set<Id>, id: Id)
    requires Sound(t, inFlight) && Actives(t.events, inFlight, sending)
    requires inFlight[id] > 0 && (id in sending ==> inFlight[id] > 1)
    ensures id in t.events && t.events[id].refs > 0
    ensures Live(t, inFlight - multiset{id}) && Actives(t.events, inFlight - multiset{id}, sending)
    ensures Evolves(t, t)
  {
    assert id in inFlight && RefHolds(t, inFlight, id);
    assert forall j <- inFlight - multiset{id} :: j in inFlight;
    hide EventsHold, EntriesHold, HandlesHold;
  }

  lemma DropStep(t: Tables, inFlight: multiset<Id>, sending: set<Id>, next: Id, freed: seq<Id>, id: Id)
    requires Sound(t, inFlight) && FreedOnce(t, next, freed) && Actives(t.events, inFlight, sending)
    requires inFlight[id] > 0 && (id in sending ==> inFlight[id] > 1)
    ensures id in t.events && t.events[id].refs > 0 && freed <= Freed(t, id, freed)
    ensures var t1 := EventLifetime.Deref(t, id);
            && Sound(t1, inFlight - multiset{id}) && FreedOnce(t1, next, Freed(t, id, freed))
            && Actives(t1.events, inFlight - multiset{id}, sending)
            && Alive(t.events, t1.events, inFlight - multiset{id})
  {
    DerefKeeps(t, inFlight, id);
    FewerInFlight(t, inFlight, sending, id);
    hide Sound, Actives, FreedOnce, Alive, Live;
    DerefStep(t, t, inFlight - multiset{id}, sending, next, freed, id);
  }

  lemma SocketFds(t: Tables, inFlight: multiset<Id>)
    requires Sound(t, inFlight)
    ensures forall fd <- t.handles :: t.handles[fd] in t.events
  {
    assert forall fd <- t.handles :: HandleHolds(t, fd);
  }

  lemma TimersAreOneEach(t: Tables, inFlight: multiset<Id>)
    requires Sound(t, inFlight)
    ensures OneEach(t.zeroTimers) && forall i <- t.zeroTimers :: t.zeroTimers[i] in t.events
  {
    assert forall i <- t.zeroTimers :: ZeroTimerHolds(t, i);
  }

  /** The kernel's pointers lead to live objects, one for each descriptor. */
  lemma KernelIsOneEach(t: Tables, inFlight: multiset<Id>, ready: set<Fd>)
    requires Sound(t, inFlight)
    ensures var ids := map fd | fd in t.kernel && fd in ready :: t.kernel[fd].ptr;
            OneEach(ids) && forall fd <- ids :: ids[fd] in t.events
  {
    assert forall fd <- t.handles :: HandleHolds(t, fd);
  }

  lemma AliveLess(e0: map<Id, Event>, e1: map<Id, Event>, ids: multiset<Id>, more: multiset<Id>)
    requires Alive(e0, e1, more) && ids <= more
    ensures Alive(e0, e1, ids)
  {
    assert forall id <- ids :: id in more;
  }

  /** The entries of a batch from the i-th on. */
  ghost function Rest(batch: seq<Id>, i: nat): multiset<Id>
    requires i <= |batch|
  {
    multiset(batch[i..])
  }

  lemma RestEnds(batch: seq<Id>)
    ensures Rest(batch, 0) == multiset(batch) && Rest(batch, |batch|) == multiset{}
  {
    assert batch[0..] == batch;
  }

  lemma RestOf(batch: seq<Id>, i: nat)
    requires Distinct(batch) && i < |batch|
    ensures Rest(batch, i) == multiset{batch[i]} + Rest(batch, i + 1)
    ensures Rest(batch, i)[batch[i]] == 1
  {
    assert batch[i..] == [batch[i]] + batch[i + 1..];
    assert batch[i] !in batch[i + 1..];
  }

  lemma TurnFacts(t: Tables, inFlight: multiset<Id>, sending: set<Id>, id: Id)
    requires Sound(t, inFlight) && Actives(t.events, inFlight, sending) && inFlight[id] > 0
    ensures id in t.events
    ensures t.events[id].refs > 1 <==> Registrations(t, id) > 0 || inFlight[id] > 1
    ensures t.events[id].ZeroTimer? ==> (t.events[id].active <==> id !in sending)
  {
    CanProcess(t, inFlight, id);
  }

  lemma MarkStep(t: Tables, inFlight: multiset<Id>, sending: set<Id>, next: Id, freed: seq<Id>, id: Id)
    requires Sound(t, inFlight) && FreedOnce(t, next, freed) && Actives(t.events, inFlight, sending)
    requires inFlight[id] > 0 && id !in sending && id in t.events && t.events[id].ZeroTimer?
    ensures var t1 := Marked(t, id, false);
            && t.events[id].active && Sound(t1, inFlight) && FreedOnce(t1, next, freed)
            && Actives(t1.events, inFlight, sending + {id})
  {
    MarkedKeeps(t, inFlight, id, false);
    SameObjects(t, Marked(t, id, false), next, freed);
    hide EventsHold, EntriesHold, HandlesHold, RefsHold;
    assert id in inFlight;
  }

  lemma ZeroStays(marked: map<Id, Event>, t: Tables, inFlight: multiset<Id>, sending: set<Id>, id: Id)
    requires Alive(marked, t.events, inFlight) && inFlight[id] > 0 && id in marked && marked[id].ZeroTimer?
    requires Actives(t.events, inFlight, sending) && id in sending
    ensures id in t.events && t.events[id].ZeroTimer? && !t.events[id].active
  {
    assert id in inFlight;
  }

  lemma UnmarkStep(e0: map<Id, Event>, marked: map<Id, Event>, t: Tables, inFlight: multiset<Id>, sending: set<Id>,
                   next: Id, freed: seq<Id>, id: Id)
    requires Sound(t, inFlight) && FreedOnce(t, next, freed) && Actives(t.events, inFlight, sending)
    requires id in sending && id in t.events && t.events[id].ZeroTimer?
    requires id in e0 && e0[id].ZeroTimer? && e0[id].active && marked == e0[id := e0[id].(active := false)]
    requires Alive(marked, t.events, inFlight)
    ensures var t1 := Marked(t, id, true);
            && Sound(t1, inFlight) && FreedOnce(t1, next, freed)
            && Actives(t1.events, inFlight, sending - {id}) && Alive(e0, t1.events, inFlight)
  {
    MarkedKeeps(t, inFlight, id, true);
    SameObjects(t, Marked(t, id, true), next, freed);
    hide EventsHold, EntriesHold, HandlesHold, RefsHold;
  }
}
