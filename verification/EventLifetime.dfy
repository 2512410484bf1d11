/** The event objects of the epoll dispatcher: who holds them, and what every table and the kernel
    say about them. An object's address is its `Id` in the map of live objects, so that touching an
    object after its `delete` is a lookup that fails. */
module EventLifetime {
  import opened Basics

  type Id = nat
  type Fd = nat
  type TimerId = nat
  type Owner = nat

  datatype Kind = Read | Write | Exception

  /** A socket notifier: its identity, descriptor and type. */
  datatype Notifier = Notifier(serial: nat, fd: Fd, kind: Kind)

  datatype Event =
    | SocketInfo(fd: Fd, refs: nat, r: Option<Notifier>, w: Option<Notifier>, x: Option<Notifier>, mask: set<Kind>)
    | TimerInfo(fd: Fd, refs: nat, timerId: TimerId, owner: Owner)
    | ZeroTimer(refs: nat, timerId: TimerId, owner: Owner, active: bool)

  /** What the kernel keeps for a watched descriptor: the pointer and the mask. */
  datatype Interest = Interest(ptr: Id, mask: set<Kind>)

  datatype Tables = Tables(events: map<Id, Event>, handles: map<Fd, Id>, notifiers: map<Notifier, Id>,
                           timers: map<TimerId, Id>, zeroTimers: map<TimerId, Id>, kernel: map<Fd, Interest>)

  function Slot(e: Event, k: Kind): Option<Notifier>
    requires e.SocketInfo?
  {
    match k case Read => e.r case Write => e.w case Exception => e.x
  }

  function Held(o: Option<Notifier>): nat {
    if o.Some? then 1 else 0
  }

  function Slots(e: Event): nat
    requires e.SocketInfo?
  {
    Held(e.r) + Held(e.w) + Held(e.x)
  }

  /** The live registrations of an event object. */
  function Registrations(t: Tables, id: Id): nat
    requires id in t.events
  {
    match t.events[id]
    case SocketInfo(_, _, _, _, _, _) => Slots(t.events[id])
    case TimerInfo(_, _, timerId, _) => if timerId in t.timers && t.timers[timerId] == id then 1 else 0
    case ZeroTimer(_, timerId, _, _) => if timerId in t.zeroTimers && t.zeroTimers[timerId] == id then 1 else 0
  }

  // ----- What always holds ---------------------------------------------------------------------

  /** An object's slots are registered notifiers and its mask names them; while it is registered and
      has a descriptor, the descriptor table leads to it. */
  predicate EventHolds(t: Tables, id: Id)
    requires id in t.events
  {
    var e := t.events[id];
    && (e.SocketInfo? ==> SlotHolds(t, id, Read) && SlotHolds(t, id, Write) && SlotHolds(t, id, Exception))
    && (!e.ZeroTimer? && Registrations(t, id) > 0 ==> e.fd in t.handles && t.handles[e.fd] == id)
  }

  predicate SlotHolds(t: Tables, id: Id, k: Kind)
    requires id in t.events && t.events[id].SocketInfo?
  {
    var s := Slot(t.events[id], k);
    && (s.Some? ==> s.value.kind == k && s.value in t.notifiers && t.notifiers[s.value] == id)
    && (k in t.events[id].mask <==> s.Some?)
  }

  predicate NotifierHolds(t: Tables, n: Notifier)
    requires n in t.notifiers
  {
    var id := t.notifiers[n];
    && id in t.events && t.events[id].SocketInfo?
    && t.events[id].fd == n.fd && Slot(t.events[id], n.kind) == Some(n)
  }

  predicate TimerHolds(t: Tables, i: TimerId)
    requires i in t.timers
  {
    t.timers[i] in t.events && t.events[t.timers[i]].TimerInfo? && t.events[t.timers[i]].timerId == i
  }

  predicate ZeroTimerHolds(t: Tables, i: TimerId)
    requires i in t.zeroTimers
  {
    t.zeroTimers[i] in t.events && t.events[t.zeroTimers[i]].ZeroTimer? && t.events[t.zeroTimers[i]].timerId == i
  }

  /** The descriptor table and the kernel name a live, registered object of that descriptor, and the
      kernel watches for what it is registered for. */
  predicate HandleHolds(t: Tables, fd: Fd)
    requires fd in t.handles
  {
    var id := t.handles[fd];
    && id in t.events && !t.events[id].ZeroTimer? && t.events[id].fd == fd && Registrations(t, id) > 0
    && fd in t.kernel && t.kernel[fd].ptr == id
    && (t.events[id].SocketInfo? ==> t.kernel[fd].mask == t.events[id].mask)
  }

  ghost predicate EventsHold(t: Tables) {
    forall id <- t.events :: EventHolds(t, id)
  }

  ghost predicate EntriesHold(t: Tables) {
    (forall n <- t.notifiers :: NotifierHolds(t, n)) && TimersHold(t)
  }

  ghost predicate TimersHold(t: Tables) {
    && (forall i <- t.timers :: TimerHolds(t, i))
    && (forall i <- t.zeroTimers :: ZeroTimerHolds(t, i))
  }

  ghost predicate HandlesHold(t: Tables) {
    t.kernel.Keys == t.handles.Keys && forall fd <- t.handles :: HandleHolds(t, fd)
  }

  /** The reference count is the live registrations and the uses in flight, and is not zero. */
  ghost predicate RefsHold(t: Tables, inFlight: multiset<Id>) {
    && (forall id <- t.events :: RefHolds(t, inFlight, id))
    && (forall id <- inFlight :: id in t.events)
  }

  predicate RefHolds(t: Tables, inFlight: multiset<Id>, id: Id)
    requires id in t.events
  {
    t.events[id].refs == Registrations(t, id) + inFlight[id] && t.events[id].refs > 0
  }

  ghost predicate Sound(t: Tables, inFlight: multiset<Id>) {
    EventsHold(t) && EntriesHold(t) && HandlesHold(t) && RefsHold(t, inFlight)
  }

  /** Objects are made with fresh identities and deleted once. */
  ghost predicate FreedOnce(t: Tables, next: Id, freed: seq<Id>) {
    && (forall i, j :: 0 <= i < j < |freed| ==> freed[i] != freed[j])
    && (forall id: Id :: id in freed <==> id < next && id !in t.events)
    && (forall id <- t.events :: id < next)
  }

  // ----- What follows --------------------------------------------------------------------------

  /** An object found in a batch can be processed if and only if it is still registered, or another
      batch around this one holds it too. */
  lemma CanProcess(t: Tables, inFlight: multiset<Id>, id: Id)
    requires Sound(t, inFlight) && inFlight[id] > 0
    ensures id in t.events
    ensures t.events[id].refs > 1 <==> Registrations(t, id) > 0 || inFlight[id] > 1
  {
    assert id in inFlight && RefHolds(t, inFlight, id);
  }

  /** With no batch under way nothing has leaked: the live objects are the registered ones. */
  lemma NothingLeaks(t: Tables, id: Id)
    requires Sound(t, multiset{}) && id in t.events
    ensures t.events[id].refs == Registrations(t, id) > 0
    ensures id in t.notifiers.Values || id in t.timers.Values || id in t.zeroTimers.Values
  {
    hide EntriesHold, HandlesHold;
    assert EventHolds(t, id) && RefHolds(t, multiset{}, id);
  }

  ghost function NotifiersOf(t: Tables, id: Id): set<Notifier> {
    set n | n in t.notifiers && t.notifiers[n] == id
  }

  ghost function TimersOf(timers: map<TimerId, Id>, id: Id): set<TimerId> {
    set i | i in timers && timers[i] == id
  }

  /** The registrations counted by object are the entries of the tables that point to it. */
  lemma RegistrationsAreEntries(t: Tables, inFlight: multiset<Id>, id: Id)
    requires Sound(t, inFlight) && id in t.events
    ensures Registrations(t, id) == |NotifiersOf(t, id)| + |TimersOf(t.timers, id)| + |TimersOf(t.zeroTimers, id)|
  {
    NotifierEntries(t, id);
    TimerEntries(t, id);
    hide NotifiersOf, TimersOf, EventsHold, EntriesHold, HandlesHold, RefsHold;
  }

  lemma NotifierEntries(t: Tables, id: Id)
    requires EventsHold(t) && EntriesHold(t) && id in t.events
    ensures |NotifiersOf(t, id)| == if t.events[id].SocketInfo? then Registrations(t, id) else 0
  {
    hide EventsHold, EntriesHold, NotifiersOf, Slot, InSlot, KindsFit;
    if !t.events[id].SocketInfo? {
      NoNotifierElsewhere(t, id);
    } else {
      var e := t.events[id];
      NotifiersAreSlots(t, id);
      SlotKinds(t, id);
      SlotCount(e);
      SlotsOf(e);
      assert NotifiersOf(t, id) == InSlot(e.r) + InSlot(e.w) + InSlot(e.x);
    }
  }

  lemma SlotsOf(e: Event)
    requires e.SocketInfo? && KindsFit(e)
    ensures forall n: Notifier :: Slot(e, n.kind) == Some(n) <==> n in InSlot(e.r) + InSlot(e.w) + InSlot(e.x)
  {
  }

  predicate KindsFit(e: Event)
    requires e.SocketInfo?
  {
    && (e.r.Some? ==> e.r.value.kind == Read)
    && (e.w.Some? ==> e.w.value.kind == Write)
    && (e.x.Some? ==> e.x.value.kind == Exception)
  }

  lemma NoNotifierElsewhere(t: Tables, id: Id)
    requires EventsHold(t) && EntriesHold(t) && id in t.events && !t.events[id].SocketInfo?
    ensures NotifiersOf(t, id) == {}
  {
  }

  lemma SlotKinds(t: Tables, id: Id)
    requires EventsHold(t) && EntriesHold(t) && id in t.events && t.events[id].SocketInfo?
    ensures KindsFit(t.events[id])
  {
    assert EventHolds(t, id);
  }

  lemma NotifiersAreSlots(t: Tables, id: Id)
    requires EventsHold(t) && EntriesHold(t) && id in t.events && t.events[id].SocketInfo?
    ensures forall n: Notifier :: n in NotifiersOf(t, id) <==> Slot(t.events[id], n.kind) == Some(n)
  {
    assert EventHolds(t, id);
  }

  lemma SlotCount(e: Event)
    requires e.SocketInfo? && KindsFit(e)
    ensures |InSlot(e.r) + InSlot(e.w) + InSlot(e.x)| == Slots(e)
  {
    assert InSlot(e.r) * InSlot(e.w) == {} && (InSlot(e.r) + InSlot(e.w)) * InSlot(e.x) == {};
  }

  lemma TimerEntries(t: Tables, id: Id)
    requires EntriesHold(t) && id in t.events
    ensures |TimersOf(t.timers, id)| == if t.events[id].TimerInfo? then Registrations(t, id) else 0
    ensures |TimersOf(t.zeroTimers, id)| == if t.events[id].ZeroTimer? then Registrations(t, id) else 0
  {
    var ts, zs := TimersOf(t.timers, id), TimersOf(t.zeroTimers, id);
    var e := t.events[id];
    if e.SocketInfo? {
      assert ts == {} && zs == {};
    } else if e.TimerInfo? {
      assert zs == {} && ts == if Registrations(t, id) > 0 then {e.timerId} else {};
    } else {
      assert ts == {} && zs == if Registrations(t, id) > 0 then {e.timerId} else {};
    }
  }

  function InSlot(o: Option<Notifier>): set<Notifier> {
    if o.Some? then {o.value} else {}
  }

  // ----- The operations ------------------------------------------------------------------------

  function Ref(t: Tables, id: Id): Tables
    requires id in t.events
  {
    t.(events := t.events[id := t.events[id].(refs := t.events[id].refs + 1)])
  }

  /** One reference less; the last one deletes the object. */
  function Deref(t: Tables, id: Id): Tables
    requires id in t.events
  {
    if t.events[id].refs <= 1 then t.(events := t.events - {id})
    else t.(events := t.events[id := t.events[id].(refs := t.events[id].refs - 1)])
  }

  function Filled(e: Event, k: Kind, o: Option<Notifier>): (e1: Event)
    requires e.SocketInfo?
    ensures e1.SocketInfo?
  {
    var e1 := e.(mask := if o.Some? then e.mask + {k} else e.mask - {k});
    match k case Read => e1.(r := o) case Write => e1.(w := o) case Exception => e1.(x := o)
  }

  lemma FilledFacts(e: Event, k: Kind, o: Option<Notifier>)
    requires e.SocketInfo?
    ensures var e1 := Filled(e, k, o);
            && e1.SocketInfo? && e1.fd == e.fd && e1.refs == e.refs
            && (forall k' :: Slot(e1, k') == if k' == k then o else Slot(e, k'))
            && (forall k' :: k' in e1.mask <==> if k' == k then o.Some? else k' in e.mask)
            && Slots(e1) + Held(Slot(e, k)) == Slots(e) + Held(o)
  {
  }

  lemma SlotCounts(e: Event, k: Kind)
    requires e.SocketInfo? && Slot(e, k).Some?
    ensures Slots(e) > 0
  {
  }

  /** A notifier may be registered on a descriptor that is not a timer's. */
  predicate SocketFd(t: Tables, fd: Fd) {
    fd in t.handles ==> t.handles[fd] in t.events && t.events[t.handles[fd]].SocketInfo?
  }

  /** A second notifier of one type for one descriptor is refused. */
  predicate Refused(t: Tables, n: Notifier)
    requires SocketFd(t, n.fd)
  {
    n.fd in t.handles && Slot(t.events[t.handles[n.fd]], n.kind).Some?
  }

  /** Registering a notifier: a new object, or a free slot of the descriptor's object. */
  function AddNotifier(t: Tables, n: Notifier, next: Id): Tables
    requires SocketFd(t, n.fd)
  {
    if n.fd !in t.handles then
      t.(events := t.events[next := Filled(SocketInfo(n.fd, 1, None, None, None, {}), n.kind, Some(n))],
         handles := t.handles[n.fd := next], notifiers := t.notifiers[n := next],
         kernel := t.kernel[n.fd := Interest(next, {n.kind})])
    else if Refused(t, n) then t
    else
      var id := t.handles[n.fd];
      var e := Filled(t.events[id], n.kind, Some(n));
      Ref(t.(events := t.events[id := e], notifiers := t.notifiers[n := id],
             kernel := t.kernel[n.fd := Interest(id, e.mask)]), id)
  }

  /** Unregistering a notifier empties its slot; the descriptor goes with the last one. */
  function RemoveNotifier(t: Tables, n: Notifier): Tables
    requires n in t.notifiers && t.notifiers[n] in t.events && t.events[t.notifiers[n]].SocketInfo?
  {
    Deref(Emptied(t, n), t.notifiers[n])
  }

  /** Unregistering up to the final dereference, which is then owed. */
  function Emptied(t: Tables, n: Notifier): Tables
    requires n in t.notifiers && t.notifiers[n] in t.events && t.events[t.notifiers[n]].SocketInfo?
  {
    var id := t.notifiers[n];
    var e := Filled(t.events[id], n.kind, None);
    var t1 := t.(events := t.events[id := e], notifiers := t.notifiers - {n});
    if Slots(e) > 0 then t1.(kernel := t.kernel[e.fd := Interest(id, e.mask)])
    else t1.(handles := t.handles - {e.fd}, kernel := t.kernel - {e.fd})
  }

  function AddTimer(t: Tables, i: TimerId, fd: Fd, owner: Owner, next: Id): Tables {
    t.(events := t.events[next := TimerInfo(fd, 1, i, owner)], timers := t.timers[i := next],
       handles := t.handles[fd := next], kernel := t.kernel[fd := Interest(next, {Read})])
  }

  function AddZeroTimer(t: Tables, i: TimerId, owner: Owner, next: Id): Tables {
    t.(events := t.events[next := ZeroTimer(1, i, owner, true)], zeroTimers := t.zeroTimers[i := next])
  }

  predicate TimerFits(t: Tables, i: TimerId) {
    (i in t.timers ==> TimerHolds(t, i)) && (i in t.zeroTimers ==> ZeroTimerHolds(t, i))
  }

  function RemoveTimer(t: Tables, i: TimerId): Tables
    requires TimerFits(t, i)
  {
    if i in t.timers then Deref(Stopped(t, i), t.timers[i])
    else if i in t.zeroTimers then Deref(t.(zeroTimers := t.zeroTimers - {i}), t.zeroTimers[i])
    else t
  }

  /** Stopping a timer but for its dereference. */
  function Stopped(t: Tables, i: TimerId): Tables
    requires i in t.timers && TimerHolds(t, i)
  {
    var fd := t.events[t.timers[i]].fd;
    t.(timers := t.timers - {i}, handles := t.handles - {fd}, kernel := t.kernel - {fd})
  }

  // ----- Each keeps the tables sound -----------------------------------------------------------

  lemma RefKeeps(t: Tables, inFlight: multiset<Id>, id: Id)
    requires Sound(t, inFlight) && id in t.events
    ensures Sound(Ref(t, id), inFlight + multiset{id})
  {
    hide EventsHold, EntriesHold, HandlesHold, Registrations;
    var t1 := Ref(t, id);
    OnlyRefs(t, t1);
    forall j <- t1.events
      ensures RefHolds(t1, inFlight + multiset{id}, j)
    {
      SameRegistrations(t, t1, j);
      assert RefHolds(t, inFlight, j);
    }
  }

  /** One object, but for its reference count and whether it is being sent. */
  predicate Alike(e: Event, e1: Event) {
    match e
    case SocketInfo(fd, _, r, w, x, mask) => e1.SocketInfo? && e1 == SocketInfo(fd, e1.refs, r, w, x, mask)
    case TimerInfo(fd, _, i, owner) => e1.TimerInfo? && e1 == TimerInfo(fd, e1.refs, i, owner)
    case ZeroTimer(_, _, _, _) => e1.ZeroTimer? && e1.timerId == e.timerId && e1.owner == e.owner
  }

  /** Nothing but reference counts and sending changed, or unregistered objects went. */
  predicate Similar(t: Tables, t1: Tables) {
    && t1 == t.(events := t1.events)
    && (forall j <- t1.events :: j in t.events && Alike(t.events[j], t1.events[j]))
    && (forall j <- t.events :: j !in t1.events ==> Registrations(t, j) == 0)
  }

  lemma SameRegistrations(t: Tables, t1: Tables, j: Id)
    requires j in t.events && j in t1.events && t1 == t.(events := t1.events)
    requires Alike(t.events[j], t1.events[j])
    ensures Registrations(t1, j) == Registrations(t, j)
  {
  }

  lemma OnlyRefs(t: Tables, t1: Tables)
    requires EventsHold(t) && EntriesHold(t) && HandlesHold(t) && Similar(t, t1)
    ensures EventsHold(t1) && EntriesHold(t1) && HandlesHold(t1)
  {
    SimilarEntries(t, t1);
    forall j <- t1.events
      ensures EventHolds(t1, j)
    {
      assert EventHolds(t, j);
    }
    forall fd <- t1.handles
      ensures HandleHolds(t1, fd)
    {
      assert HandleHolds(t, fd);
    }
  }

  lemma SimilarEntries(t: Tables, t1: Tables)
    requires EntriesHold(t) && Similar(t, t1)
    ensures EntriesHold(t1)
  {
    forall n <- t1.notifiers
      ensures NotifierHolds(t1, n)
    {
      assert NotifierHolds(t, n);
    }
    forall i <- t1.timers
      ensures TimerHolds(t1, i)
    {
      assert TimerHolds(t, i);
    }
    forall i <- t1.zeroTimers
      ensures ZeroTimerHolds(t1, i)
    {
      assert ZeroTimerHolds(t, i);
    }
  }

  /** Marking a zero timer as being sent, or not. */
  function Marked(t: Tables, id: Id, active: bool): Tables
    requires id in t.events && t.events[id].ZeroTimer?
  {
    t.(events := t.events[id := t.events[id].(active := active)])
  }

  lemma MarkedKeeps(t: Tables, inFlight: multiset<Id>, id: Id, active: bool)
    requires Sound(t, inFlight) && id in t.events && t.events[id].ZeroTimer?
    ensures Sound(Marked(t, id, active), inFlight)
  {
    hide EventsHold, EntriesHold, HandlesHold, Registrations;
    var t1 := Marked(t, id, active);
    OnlyRefs(t, t1);
    forall j <- t1.events
      ensures RefHolds(t1, inFlight, j)
    {
      SameRegistrations(t, t1, j);
      assert RefHolds(t, inFlight, j);
    }
  }

  lemma DerefKeeps(t: Tables, inFlight: multiset<Id>, id: Id)
    requires Sound(t, inFlight) && inFlight[id] > 0
    ensures id in t.events && Sound(Deref(t, id), inFlight - multiset{id})
  {
    hide EventsHold, EntriesHold, HandlesHold, Registrations, Similar;
    assert id in inFlight;
    var t1 := Deref(t, id);
    DerefSimilar(t, inFlight, id);
    OnlyRefs(t, t1);
    forall j <- t1.events
      ensures RefHolds(t1, inFlight - multiset{id}, j)
    {
      SameRegistrations(t, t1, j);
      assert RefHolds(t, inFlight, j);
    }
    forall j <- inFlight - multiset{id}
      ensures j in t1.events
    {
      assert j in inFlight && RefHolds(t, inFlight, j);
    }
  }

  lemma DerefSimilar(t: Tables, inFlight: multiset<Id>, id: Id)
    requires id in t.events && RefHolds(t, inFlight, id) && inFlight[id] > 0
    ensures Similar(t, Deref(t, id))
  {
    hide Registrations;
  }

  lemma AddNotifierKeeps(t: Tables, inFlight: multiset<Id>, n: Notifier, next: Id)
    requires Sound(t, inFlight) && SocketFd(t, n.fd) && next !in t.events
    ensures Sound(AddNotifier(t, n, next), inFlight)
  {
    hide EventsHold, EntriesHold, HandlesHold, RefsHold;
    if n.fd !in t.handles || !Refused(t, n) {
      NotRegistered(t, n);
      AddNotifierEvents(t, n, next);
      AddNotifierEntries(t, n, next);
      AddNotifierHandles(t, n, next);
      AddNotifierRefs(t, inFlight, n, next);
    }
  }

  /** The object a notifier is added to, afterwards. */
  lemma AddNotifierFills(t: Tables, n: Notifier, next: Id)
    requires SocketFd(t, n.fd)
    ensures n.fd in t.handles && !Refused(t, n) ==>
              var e := t.events[t.handles[n.fd]];
              var e1 := AddNotifier(t, n, next).events[t.handles[n.fd]];
              && e1.SocketInfo? && e1.fd == e.fd && e1.refs == e.refs + 1
              && (forall k :: Slot(e1, k) == if k == n.kind then Some(n) else Slot(e, k))
              && (forall k :: k in e1.mask <==> k == n.kind || k in e.mask)
              && Slots(e1) == Slots(e) + 1 && e1.mask == Filled(e, n.kind, Some(n)).mask
    ensures n.fd !in t.handles ==>
              var e1 := AddNotifier(t, n, next).events[next];
              && e1.SocketInfo? && e1.fd == n.fd && e1.refs == 1
              && (forall k :: Slot(e1, k) == if k == n.kind then Some(n) else None)
              && (forall k :: k in e1.mask <==> k == n.kind)
              && Slots(e1) == 1
  {
    if n.fd in t.handles {
      var e := t.events[t.handles[n.fd]];
      FilledFacts(e, n.kind, Some(n));
      OtherRefs(Filled(e, n.kind, Some(n)), e.refs + 1);
    } else {
      FilledFacts(SocketInfo(n.fd, 1, None, None, None, {}), n.kind, Some(n));
    }
  }

  lemma OtherRefs(e: Event, refs: nat)
    requires e.SocketInfo?
    ensures var e1 := SocketInfo(e.fd, refs, e.r, e.w, e.x, e.mask);
            Slots(e1) == Slots(e) && forall k :: Slot(e1, k) == Slot(e, k)
  {
  }

  /** A notifier whose slot is free is in no table. */
  lemma NotRegistered(t: Tables, n: Notifier)
    requires EventsHold(t) && EntriesHold(t) && SocketFd(t, n.fd) && (n.fd in t.handles ==> !Refused(t, n))
    ensures n !in t.notifiers
  {
    if n in t.notifiers {
      assert NotifierHolds(t, n);
      RegisteredIsHandled(t, t.notifiers[n], n.kind);
      assert false;
    }
  }

  lemma RegisteredIsHandled(t: Tables, id: Id, k: Kind)
    requires EventsHold(t) && id in t.events && t.events[id].SocketInfo? && Slot(t.events[id], k).Some?
    ensures t.events[id].fd in t.handles && t.handles[t.events[id].fd] == id
  {
    SlotCounts(t.events[id], k);
    assert EventHolds(t, id);
  }

  lemma AddNotifierEvents(t: Tables, n: Notifier, next: Id)
    requires EventsHold(t) && HandlesHold(t) && SocketFd(t, n.fd) && next !in t.events && n !in t.notifiers
    requires n.fd in t.handles ==> !Refused(t, n)
    ensures EventsHold(AddNotifier(t, n, next))
  {
    hide Filled, Slot, Slots;
    AddNotifierFills(t, n, next);
    var t1 := AddNotifier(t, n, next);
    var id := t1.handles[n.fd];
    if n.fd in t.handles {
      assert HandleHolds(t, n.fd);
      assert EventHolds(t, id);
    }
    SlotFilled(t, n, next);
    forall j <- t1.events
      ensures EventHolds(t1, j)
    {
      if j != id {
        assert EventHolds(t, j);
        OtherEvent(t, t1, j);
      }
    }
  }

  /** An object holds as before when it, the entries that lead to it and its descriptor stay. */
  lemma OtherEvent(t: Tables, t1: Tables, j: Id)
    requires j in t.events && EventHolds(t, j) && j in t1.events && t1.events[j] == t.events[j]
    requires forall m <- t.notifiers :: t.notifiers[m] == j ==> m in t1.notifiers && t1.notifiers[m] == j
    requires Registrations(t1, j) == Registrations(t, j)
    requires forall fd <- t.handles :: t.handles[fd] == j ==> fd in t1.handles && t1.handles[fd] == j
    ensures EventHolds(t1, j)
  {
  }

  lemma SlotFilled(t: Tables, n: Notifier, next: Id)
    requires SocketFd(t, n.fd) && next !in t.events && (n.fd in t.handles ==> !Refused(t, n))
    requires n !in t.notifiers
    requires n.fd in t.handles ==> HandleHolds(t, n.fd) && EventHolds(t, t.handles[n.fd])
    ensures var t1 := AddNotifier(t, n, next);
            t1.handles[n.fd] in t1.events && EventHolds(t1, t1.handles[n.fd])
  {
    hide Filled, Slot, Slots;
    AddNotifierFills(t, n, next);
  }

  lemma AddNotifierEntries(t: Tables, n: Notifier, next: Id)
    requires EntriesHold(t) && HandlesHold(t) && SocketFd(t, n.fd) && next !in t.events
    requires n.fd in t.handles ==> !Refused(t, n)
    ensures EntriesHold(AddNotifier(t, n, next))
  {
    hide Filled, Slot, Slots, TimersHold;
    AddNotifierFills(t, n, next);
    var t1 := AddNotifier(t, n, next);
    if n.fd in t.handles {
      assert HandleHolds(t, n.fd);
    }
    forall m <- t1.notifiers
      ensures NotifierHolds(t1, m)
    {
      assert m == n || NotifierHolds(t, m);
    }
    TimersUntouched(t, t1);
  }

  /** Timers do not depend on the objects of sockets. */
  lemma TimersUntouched(t: Tables, t1: Tables)
    requires TimersHold(t) && t1.timers == t.timers && t1.zeroTimers == t.zeroTimers
    requires forall j <- t.events :: !t.events[j].SocketInfo? ==> j in t1.events && t1.events[j] == t.events[j]
    ensures TimersHold(t1)
  {
    forall i <- t1.timers
      ensures TimerHolds(t1, i)
    {
      assert TimerHolds(t, i);
    }
    forall i <- t1.zeroTimers
      ensures ZeroTimerHolds(t1, i)
    {
      assert ZeroTimerHolds(t, i);
    }
  }

  lemma AddNotifierHandles(t: Tables, n: Notifier, next: Id)
    requires HandlesHold(t) && SocketFd(t, n.fd) && next !in t.events
    requires n.fd in t.handles ==> !Refused(t, n)
    ensures HandlesHold(AddNotifier(t, n, next))
  {
    AddNotifierHandle(t, n, next);
    hide Filled, Slot, Slots, Registrations;
    var t1 := AddNotifier(t, n, next);
    forall fd <- t1.handles
      ensures HandleHolds(t1, fd)
    {
      if fd != n.fd {
        assert HandleHolds(t, fd);
        if n.fd in t.handles {
          assert HandleHolds(t, n.fd);
        }
        OtherRegistrations(t, t1, t.handles[fd]);
      }
    }
  }

  lemma AddNotifierHandle(t: Tables, n: Notifier, next: Id)
    requires HandlesHold(t) && SocketFd(t, n.fd) && (n.fd in t.handles ==> !Refused(t, n))
    ensures n.fd in AddNotifier(t, n, next).handles && HandleHolds(AddNotifier(t, n, next), n.fd)
  {
    hide Filled, Slot, Slots;
    AddNotifierFills(t, n, next);
    if n.fd in t.handles {
      assert HandleHolds(t, n.fd);
    }
  }

  lemma AddNotifierRefs(t: Tables, inFlight: multiset<Id>, n: Notifier, next: Id)
    requires RefsHold(t, inFlight) && SocketFd(t, n.fd) && next !in t.events && n !in t.notifiers
    requires n.fd in t.handles ==> !Refused(t, n)
    ensures RefsHold(AddNotifier(t, n, next), inFlight)
  {
    hide Filled, Slot, Slots;
    AddNotifierFills(t, n, next);
    var t1 := AddNotifier(t, n, next);
    forall j <- t1.events
      ensures RefHolds(t1, inFlight, j)
    {
      if j in t.events {
        assert RefHolds(t, inFlight, j);
      }
    }
  }

  lemma RemoveNotifierKeeps(t: Tables, inFlight: multiset<Id>, n: Notifier)
    requires Sound(t, inFlight) && n in t.notifiers
    ensures NotifierHolds(t, n) && Sound(RemoveNotifier(t, n), inFlight)
  {
    assert NotifierHolds(t, n);
    hide EventsHold, EntriesHold, HandlesHold, RefsHold, Registrations;
    var id := t.notifiers[n];
    hide Filled, Slot, Slots;
    FilledFacts(t.events[t.notifiers[n]], n.kind, None);
    var t1 := Emptied(t, n);
    EmptiedEvents(t, n);
    EmptiedEntries(t, n);
    EmptiedHandles(t, n);
    EmptiedRefs(t, inFlight, n);
    DerefKeeps(t1, inFlight + multiset{id}, id);
    assert inFlight + multiset{id} - multiset{id} == inFlight;
  }

  lemma EmptiedEvents(t: Tables, n: Notifier)
    requires EventsHold(t) && n in t.notifiers && NotifierHolds(t, n) && HandlesHold(t)
    ensures EventsHold(Emptied(t, n))
  {
    hide Filled, Slot, Slots;
    FilledFacts(t.events[t.notifiers[n]], n.kind, None);
    var t1 := Emptied(t, n);
    var id := t.notifiers[n];
    assert EventHolds(t, id) && HandleHolds(t, n.fd);
    SlotEmptied(t, n);
    hide EventsHold;
    forall j <- t1.events
      ensures EventHolds(t1, j)
    {
      if j != id {
        OneEvent(t, j);
        OtherEvent(t, t1, j);
      }
    }
    EventsHoldIf(t1);
  }

  lemma OneEvent(t: Tables, j: Id)
    requires EventsHold(t) && j in t.events
    ensures EventHolds(t, j)
  {
  }

  lemma EventsHoldIf(t: Tables)
    requires forall id <- t.events :: EventHolds(t, id)
    ensures EventsHold(t)
  {
  }

  lemma SlotEmptied(t: Tables, n: Notifier)
    requires n in t.notifiers && NotifierHolds(t, n) && EventHolds(t, t.notifiers[n])
    ensures var t1 := Emptied(t, n);
            t.notifiers[n] in t1.events && EventHolds(t1, t.notifiers[n])
  {
    hide Filled, Slot, Slots;
    FilledFacts(t.events[t.notifiers[n]], n.kind, None);
  }

  lemma EmptiedEntries(t: Tables, n: Notifier)
    requires EntriesHold(t) && n in t.notifiers && NotifierHolds(t, n)
    ensures EntriesHold(Emptied(t, n))
  {
    hide Filled, Slot, Slots, TimersHold;
    FilledFacts(t.events[t.notifiers[n]], n.kind, None);
    var t1 := Emptied(t, n);
    forall m <- t1.notifiers
      ensures NotifierHolds(t1, m)
    {
      assert NotifierHolds(t, m);
    }
    TimersUntouched(t, t1);
  }

  lemma EmptiedHandles(t: Tables, n: Notifier)
    requires EventsHold(t) && HandlesHold(t) && n in t.notifiers && NotifierHolds(t, n)
    ensures HandlesHold(Emptied(t, n))
  {
    hide Filled, Slot, Slots, Registrations, EventsHold, NotifierHolds;
    NotifierFd(t, n);
    RegisteredIsHandled(t, t.notifiers[n], n.kind);
    assert HandleHolds(t, n.fd);
    EmptiedHandle(t, n);
    var t1 := Emptied(t, n);
    forall fd <- t1.handles
      ensures HandleHolds(t1, fd)
    {
      if fd != n.fd {
        assert HandleHolds(t, fd);
        OtherHandle(t, t1, fd);
      }
    }
  }

  lemma NotifierFd(t: Tables, n: Notifier)
    requires n in t.notifiers && NotifierHolds(t, n)
    ensures t.notifiers[n] in t.events && t.events[t.notifiers[n]].SocketInfo?
    ensures t.events[t.notifiers[n]].fd == n.fd && Slot(t.events[t.notifiers[n]], n.kind).Some?
  {
  }

  /** A descriptor holds as before when its entries and its object stay. */
  lemma OtherHandle(t: Tables, t1: Tables, fd: Fd)
    requires fd in t.handles && HandleHolds(t, fd) && fd in t1.handles && t1.handles[fd] == t.handles[fd]
    requires fd in t1.kernel && t1.kernel[fd] == t.kernel[fd]
    requires t1.timers == t.timers && t1.zeroTimers == t.zeroTimers
    requires t.handles[fd] in t1.events && t1.events[t.handles[fd]] == t.events[t.handles[fd]]
    ensures HandleHolds(t1, fd)
  {
    OtherRegistrations(t, t1, t.handles[fd]);
  }

  lemma EmptiedHandle(t: Tables, n: Notifier)
    requires n in t.notifiers && NotifierHolds(t, n) && n.fd in t.handles && HandleHolds(t, n.fd)
    requires t.handles[n.fd] == t.notifiers[n]
    ensures n.fd in Emptied(t, n).handles ==> HandleHolds(Emptied(t, n), n.fd)
  {
    hide Filled, Slot, Slots;
    FilledFacts(t.events[t.notifiers[n]], n.kind, None);
  }

  lemma OtherRegistrations(t: Tables, t1: Tables, j: Id)
    requires j in t.events && j in t1.events && t1.events[j] == t.events[j]
    requires t1.timers == t.timers && t1.zeroTimers == t.zeroTimers
    ensures Registrations(t1, j) == Registrations(t, j)
  {
  }

  lemma EmptiedRefs(t: Tables, inFlight: multiset<Id>, n: Notifier)
    requires RefsHold(t, inFlight) && n in t.notifiers && NotifierHolds(t, n)
    ensures RefsHold(Emptied(t, n), inFlight + multiset{t.notifiers[n]})
  {
    hide Filled, Slot, Slots;
    FilledFacts(t.events[t.notifiers[n]], n.kind, None);
    var t1 := Emptied(t, n);
    forall j <- t1.events
      ensures RefHolds(t1, inFlight + multiset{t.notifiers[n]}, j)
    {
      assert RefHolds(t, inFlight, j);
    }
  }

  // ----- Timers --------------------------------------------------------------------------------

  lemma AddTimerKeeps(t: Tables, inFlight: multiset<Id>, i: TimerId, fd: Fd, owner: Owner, next: Id)
    requires Sound(t, inFlight) && next !in t.events && fd !in t.handles && i !in t.timers
    ensures Sound(AddTimer(t, i, fd, owner, next), inFlight)
  {
    hide EntriesHold, HandlesHold;
    var t1 := AddTimer(t, i, fd, owner, next);
    AddTimerEntries(t, t1, next);
    NewObject(t, t1, inFlight, next);
    AddTimerHandles(t, i, fd, owner, next);
  }

  lemma AddTimerHandles(t: Tables, i: TimerId, fd: Fd, owner: Owner, next: Id)
    requires HandlesHold(t) && next !in t.events && fd !in t.handles && i !in t.timers
    ensures HandlesHold(AddTimer(t, i, fd, owner, next))
  {
    var t1 := AddTimer(t, i, fd, owner, next);
    forall fd1 <- t1.handles
      ensures HandleHolds(t1, fd1)
    {
      if fd1 != fd {
        assert HandleHolds(t, fd1);
        UnusedTimer(t, t1, next, t.handles[fd1]);
      }
    }
  }

  /** A new, registered object of one reference leaves the others as they were. */
  lemma NewObject(t: Tables, t1: Tables, inFlight: multiset<Id>, next: Id)
    requires EventsHold(t) && RefsHold(t, inFlight) && next !in t.events
    requires next in t1.events && t1.events == t.events[next := t1.events[next]]
    requires EventHolds(t1, next) && t1.events[next].refs == 1 == Registrations(t1, next)
    requires t1.notifiers == t.notifiers && TimersAdded(t, t1, next)
    requires forall fd <- t.handles :: fd in t1.handles && t1.handles[fd] == t.handles[fd]
    ensures EventsHold(t1) && RefsHold(t1, inFlight)
  {
    NotInFlight(t, inFlight, next);
    forall j <- t1.events
      ensures EventHolds(t1, j) && RefHolds(t1, inFlight, j)
    {
      if j != next {
        assert EventHolds(t, j) && RefHolds(t, inFlight, j);
        UnusedTimer(t, t1, next, j);
        OtherEvent(t, t1, j);
      }
    }
  }

  predicate TimersAdded(t: Tables, t1: Tables, next: Id) {
    && (forall k <- t.timers :: k in t1.timers && t1.timers[k] == t.timers[k])
    && (forall k <- t.zeroTimers :: k in t1.zeroTimers && t1.zeroTimers[k] == t.zeroTimers[k])
    && (forall k <- t1.timers :: k !in t.timers ==> t1.timers[k] == next)
    && (forall k <- t1.zeroTimers :: k !in t.zeroTimers ==> t1.zeroTimers[k] == next)
  }

  lemma NotInFlight(t: Tables, inFlight: multiset<Id>, id: Id)
    requires RefsHold(t, inFlight) && id !in t.events
    ensures inFlight[id] == 0
  {
    assert id !in inFlight;
  }

  /** A timer whose identity was not in use changes no other object's registrations. */
  lemma UnusedTimer(t: Tables, t1: Tables, next: Id, j: Id)
    requires j in t.events && j in t1.events && t1.events[j] == t.events[j]
    requires next != j && TimersAdded(t, t1, next)
    ensures Registrations(t1, j) == Registrations(t, j)
  {
  }

  lemma AddTimerEntries(t: Tables, t1: Tables, next: Id)
    requires EntriesHold(t) && next !in t.events && next in t1.events && t1.notifiers == t.notifiers
    requires forall j <- t.events :: j in t1.events && t1.events[j] == t.events[j]
    requires forall k <- t1.timers ::
               if k in t.timers then t1.timers[k] == t.timers[k]
               else t1.timers[k] == next && t1.events[next].TimerInfo? && t1.events[next].timerId == k
    requires forall k <- t1.zeroTimers ::
               if k in t.zeroTimers then t1.zeroTimers[k] == t.zeroTimers[k]
               else t1.zeroTimers[k] == next && t1.events[next].ZeroTimer? && t1.events[next].timerId == k
    ensures EntriesHold(t1)
  {
    forall n <- t1.notifiers
      ensures NotifierHolds(t1, n)
    {
      assert NotifierHolds(t, n);
    }
    forall k <- t1.timers
      ensures TimerHolds(t1, k)
    {
      assert k in t.timers ==> TimerHolds(t, k);
    }
    forall k <- t1.zeroTimers
      ensures ZeroTimerHolds(t1, k)
    {
      assert k in t.zeroTimers ==> ZeroTimerHolds(t, k);
    }
  }

  lemma AddZeroTimerKeeps(t: Tables, inFlight: multiset<Id>, i: TimerId, owner: Owner, next: Id)
    requires Sound(t, inFlight) && next !in t.events && i !in t.zeroTimers
    ensures Sound(AddZeroTimer(t, i, owner, next), inFlight)
  {
    var t1 := AddZeroTimer(t, i, owner, next);
    AddTimerEntries(t, t1, next);
    NewObject(t, t1, inFlight, next);
    hide EventHolds, RefHolds, EventsHold, EntriesHold, RefsHold;
    forall fd1 <- t1.handles
      ensures HandleHolds(t1, fd1)
    {
      assert HandleHolds(t, fd1);
      UnusedTimer(t, t1, next, t.handles[fd1]);
    }
  }

  lemma RemoveTimerKeeps(t: Tables, inFlight: multiset<Id>, i: TimerId)
    requires Sound(t, inFlight)
    ensures TimerFits(t, i)
    ensures Sound(RemoveTimer(t, i), inFlight)
  {
    TimersOfEntries(t, i);
    hide Sound, TimerHolds, ZeroTimerHolds;
    if i in t.timers {
      var id := t.timers[i];
      StoppedKeeps(t, inFlight, i);
      DerefKeeps(Stopped(t, i), inFlight + multiset{id}, id);
      assert inFlight + multiset{id} - multiset{id} == inFlight;
    } else if i in t.zeroTimers {
      var id := t.zeroTimers[i];
      ZeroStoppedKeeps(t, inFlight, i);
      DerefKeeps(t.(zeroTimers := t.zeroTimers - {i}), inFlight + multiset{id}, id);
      assert inFlight + multiset{id} - multiset{id} == inFlight;
    }
  }

  lemma TimersOfEntries(t: Tables, i: TimerId)
    requires EntriesHold(t)
    ensures TimerFits(t, i)
  {
  }

  lemma StoppedKeeps(t: Tables, inFlight: multiset<Id>, i: TimerId)
    requires Sound(t, inFlight) && i in t.timers && TimerHolds(t, i)
    ensures Sound(Stopped(t, i), inFlight + multiset{t.timers[i]})
  {
    var t1 := Stopped(t, i);
    assert EventHolds(t, t.timers[i]);
    FewerEntries(t, t1);
    OneTimerLess(t, t1, inFlight, i, t.timers[i]);
    hide EventHolds, RefHolds, EventsHold, EntriesHold, RefsHold;
    forall fd1 <- t1.handles
      ensures HandleHolds(t1, fd1)
    {
      assert HandleHolds(t, fd1);
      OtherTimer(t, t1, i, t.handles[fd1]);
    }
  }

  lemma OneTimerLess(t: Tables, t1: Tables, inFlight: multiset<Id>, i: TimerId, id: Id)
    requires EventsHold(t) && RefsHold(t, inFlight) && id in t.events && t1.events == t.events
    requires t1.notifiers == t.notifiers && Registrations(t, id) == 1 && Registrations(t1, id) == 0
    requires || (i in t.timers && id == t.timers[i] && t1.timers == t.timers - {i} && t1.zeroTimers == t.zeroTimers)
             || (i in t.zeroTimers && id == t.zeroTimers[i] && t1.timers == t.timers
                 && t1.zeroTimers == t.zeroTimers - {i})
    requires !t.events[id].SocketInfo?
    requires forall fd <- t.handles :: t.handles[fd] != id ==> fd in t1.handles && t1.handles[fd] == t.handles[fd]
    ensures EventsHold(t1) && RefsHold(t1, inFlight + multiset{id})
  {
    forall j <- t1.events
      ensures EventHolds(t1, j) && RefHolds(t1, inFlight + multiset{id}, j)
    {
      assert EventHolds(t, j) && RefHolds(t, inFlight, j);
      if j != id {
        OtherTimer(t, t1, i, j);
        OtherEvent(t, t1, j);
      }
    }
  }

  lemma OtherTimer(t: Tables, t1: Tables, i: TimerId, j: Id)
    requires j in t.events && j in t1.events && t1.events[j] == t.events[j]
    requires t1.timers == t.timers || (t1.timers == t.timers - {i} && i in t.timers && j != t.timers[i])
    requires t1.zeroTimers == t.zeroTimers
             || (t1.zeroTimers == t.zeroTimers - {i} && i in t.zeroTimers && j != t.zeroTimers[i])
    ensures Registrations(t1, j) == Registrations(t, j)
  {
  }

  lemma FewerEntries(t: Tables, t1: Tables)
    requires EntriesHold(t) && t1.notifiers == t.notifiers && t1.events == t.events
    requires forall k <- t1.timers :: k in t.timers && t1.timers[k] == t.timers[k]
    requires forall k <- t1.zeroTimers :: k in t.zeroTimers && t1.zeroTimers[k] == t.zeroTimers[k]
    ensures EntriesHold(t1)
  {
    forall n <- t1.notifiers
      ensures NotifierHolds(t1, n)
    {
      assert NotifierHolds(t, n);
    }
    forall k <- t1.timers
      ensures TimerHolds(t1, k)
    {
      assert TimerHolds(t, k);
    }
    forall k <- t1.zeroTimers
      ensures ZeroTimerHolds(t1, k)
    {
      assert ZeroTimerHolds(t, k);
    }
  }

  lemma ZeroStoppedKeeps(t: Tables, inFlight: multiset<Id>, i: TimerId)
    requires Sound(t, inFlight) && i in t.zeroTimers && ZeroTimerHolds(t, i)
    ensures Sound(t.(zeroTimers := t.zeroTimers - {i}), inFlight + multiset{t.zeroTimers[i]})
  {
    var t1 := t.(zeroTimers := t.zeroTimers - {i});
    FewerEntries(t, t1);
    NotHandled(t, t.zeroTimers[i]);
    OneTimerLess(t, t1, inFlight, i, t.zeroTimers[i]);
    hide EventHolds, RefHolds, EventsHold, EntriesHold, RefsHold;
    forall fd1 <- t1.handles
      ensures HandleHolds(t1, fd1)
    {
      assert HandleHolds(t, fd1);
      OtherTimer(t, t1, i, t.handles[fd1]);
    }
  }

  lemma NotHandled(t: Tables, id: Id)
    requires HandlesHold(t) && id in t.events && t.events[id].ZeroTimer?
    ensures forall fd <- t.handles :: t.handles[fd] != id
  {
    forall fd <- t.handles
      ensures t.handles[fd] != id
    {
      assert HandleHolds(t, fd);
    }
  }
}
