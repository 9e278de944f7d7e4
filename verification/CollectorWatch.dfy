/** The pod watch that tells an allocator which collectors exist. */
module CollectorWatch {
  import opened Ledgers
  import opened LeastWeighted
  import opened ConsistentHashing

  datatype Pod = Pod(name: string, deleting: bool)

  datatype Event = Added(name: string) | Deleted(name: string) | Other(name: string)

  /** What a watch loop can wake up to. */
  datatype Signal = PodEvent(event: Event) | NotAPod | ChannelClosed | ContextDone | ClientClosed

  /** One attempt to watch: the watch cannot be created, or it delivers signals. */
  datatype Session = CannotWatch | Watching(signals: seq<Signal>)

  // ------------------------------------------------------------------ what is watched

  /** The pods that exist after a series of events, whatever the watch does with them. */
  ghost function PodsAfter(pods: set<string>, events: seq<Event>): set<string> {
    if events == [] then pods
    else
      var before := PodsAfter(pods, events[..|events| - 1]);
      match events[|events| - 1]
      case Added(name) => before + {name}
      case Deleted(name) => before - {name}
      case Other(_) => before
  }

  /** The most recent nonempty value of the watched set, or `known` if it was always empty. */
  ghost function LastSeen(known: set<string>, pods: set<string>, events: seq<Event>): set<string> {
    if PodsAfter(pods, events) != {} then PodsAfter(pods, events)
    else if events == [] then known
    else LastSeen(known, pods, events[..|events| - 1])
  }

  ghost predicate About(e: Event, n: string) {
    e.name == n && (e.Added? || e.Deleted?)
  }

  /** A pod exists exactly if the last addition or deletion of it was an addition; without one, if it did at first. */
  lemma {:induction false} PodsAfterIff(pods: set<string>, events: seq<Event>, n: string)
    ensures (forall i :: 0 <= i < |events| ==> !About(events[i], n)) ==> (n in PodsAfter(pods, events) <==> n in pods)
    ensures forall i :: 0 <= i < |events| && About(events[i], n) &&
                        (forall j :: i < j < |events| ==> !About(events[j], n)) ==>
                          (n in PodsAfter(pods, events) <==> events[i].Added?)
    decreases |events|
  {
    if events == [] {
    } else {
      PodsAfterIff(pods, events[..|events| - 1], n);
    }
  }

  /** The last nonempty set of pods there was after some of the events, or what was known at first. */
  lemma {:induction false} LastSeenIff(known: set<string>, pods: set<string>, events: seq<Event>, i: nat)
    requires i <= |events| && forall j :: i < j <= |events| ==> PodsAfter(pods, events[..j]) == {}
    ensures PodsAfter(pods, events[..i]) != {} ==> LastSeen(known, pods, events) == PodsAfter(pods, events[..i])
    ensures i == 0 && PodsAfter(pods, []) == {} ==> LastSeen(known, pods, events) == known
    decreases |events|
  {
    assert events[..|events|] == events;
    if i == |events| {
      assert i == 0 ==> events == [];
    } else {
      var most := events[..|events| - 1];
      assert forall j :: 0 <= j <= |most| ==> most[..j] == events[..j];
      assert PodsAfter(pods, events[..|events|]) == {};
      LastSeenIff(known, pods, most, i);
    }
  }

  /** The map `seen` follows the pods, and `told` is the last nonempty value of the map. */
  ghost predicate Tracks(seen: set<string>, told: set<string>, known: set<string>, pods: set<string>,
                         events: seq<Event>) {
    seen == PodsAfter(pods, events) && told == LastSeen(known, pods, events)
  }

  ghost function SeenAfter(seen: set<string>, e: Event): set<string> {
    match e
    case Added(name) => seen + {name}
    case Deleted(name) => seen - {name}
    case Other(_) => seen
  }

  lemma TracksOneMore(seen: set<string>, told: set<string>, known: set<string>, pods: set<string>, events: seq<Event>,
                      e: Event)
    requires Tracks(seen, told, known, pods, events)
    ensures var seen' := SeenAfter(seen, e);
            Tracks(seen', if seen' == {} then told else seen', known, pods, events + [e])
  {
    assert (events + [e])[..|events|] == events;
  }

  /** The pod events a series of signals delivers before the watch stops. */
  ghost function Delivered(signals: seq<Signal>): seq<Event> {
    if signals == [] || !signals[0].PodEvent? then [] else [signals[0].event] + Delivered(signals[1..])
  }

  ghost predicate Stops(signals: seq<Signal>) {
    signals != [] && (signals[0].ClientClosed? || (signals[0].PodEvent? && Stops(signals[1..])))
  }

  /** The pod events delivered over several sessions: a session that cannot start, or a closed client, ends them. */
  ghost function DeliveredOver(sessions: seq<Session>): seq<Event> {
    if sessions == [] || sessions[0].CannotWatch? then []
    else if Stops(sessions[0].signals) then Delivered(sessions[0].signals)
    else Delivered(sessions[0].signals) + DeliveredOver(sessions[1..])
  }

  /** A watch delivers the pod events up to the first other signal, and ends for good if that closes the client. */
  lemma {:induction false} DeliveredIsFront(signals: seq<Signal>)
    ensures var d := Delivered(signals);
            && |d| <= |signals| && (forall j :: 0 <= j < |d| ==> signals[j] == PodEvent(d[j]))
            && (|d| < |signals| ==> !signals[|d|].PodEvent?)
            && (Stops(signals) <==> |d| < |signals| && signals[|d|] == ClientClosed)
    decreases |signals|
  {
    if signals == [] {
    } else {
      DeliveredIsFront(signals[1..]);
    }
  }

  ghost function EventsOf(sessions: seq<Session>): seq<Event> {
    if sessions == [] then []
    else
      var last := sessions[|sessions| - 1];
      EventsOf(sessions[..|sessions| - 1]) + if last.Watching? then Delivered(last.signals) else []
  }

  ghost predicate GoesOn(s: Session) {
    s.Watching? && !Stops(s.signals)
  }

  lemma EventsOfCons(s: Session, rest: seq<Session>)
    ensures EventsOf([s] + rest) == (if s.Watching? then Delivered(s.signals) else []) + EventsOf(rest)
    decreases |rest|
  {
    var all := [s] + rest;
    if rest == [] {
      assert all[..0] == [] && EventsOf([]) == [];
    } else {
      assert all[..|all| - 1] == [s] + rest[..|rest| - 1];
      EventsOfCons(s, rest[..|rest| - 1]);
    }
  }

  function UpTo(sessions: seq<Session>, k: nat): seq<Session> {
    if k < |sessions| then sessions[..k + 1] else sessions
  }

  lemma UpToCons(sessions: seq<Session>, k: nat)
    requires 0 < k <= |sessions|
    ensures UpTo(sessions, k) == [sessions[0]] + UpTo(sessions[1..], k - 1)
  {
  }

  /** Sessions follow each other up to and including the first one that cannot start or closes the client. */
  lemma {:induction false} SessionsFollow(sessions: seq<Session>, k: nat)
    requires k <= |sessions| && forall j :: 0 <= j < k ==> GoesOn(sessions[j])
    requires k < |sessions| ==> !GoesOn(sessions[k])
    ensures DeliveredOver(sessions) == EventsOf(UpTo(sessions, k))
    decreases |sessions|
  {
    if sessions == [] {
    } else {
      var s, rest := sessions[0], sessions[1..];
      if k == 0 {
        assert sessions[..1] == [s] + [];
        EventsOfCons(s, []);
      } else {
        assert GoesOn(s);
        SessionsFollow(rest, k - 1);
        UpToCons(sessions, k);
        EventsOfCons(s, UpTo(rest, k - 1));
      }
    }
  }

  lemma NextSession(sessions: seq<Session>, i: nat, seen: seq<Event>)
    requires i <= |sessions| && seen + DeliveredOver(sessions[i..]) == DeliveredOver(sessions)
    ensures i == |sessions| || sessions[i].CannotWatch? ==> seen == DeliveredOver(sessions)
    ensures i < |sessions| && sessions[i].Watching? ==>
              var events := seen + Delivered(sessions[i].signals);
              DeliveredOver(sessions) ==
              if Stops(sessions[i].signals) then events else events + DeliveredOver(sessions[i + 1..])
  {
    if i < |sessions| {
      assert sessions[i..][1..] == sessions[i + 1..];
    }
    assert seen + [] == seen;
  }

  ghost function Listed(pods: seq<Pod>): set<string> {
    set i | 0 <= i < |pods| && !pods[i].deleting :: pods[i].name
  }

  lemma ListedOneMore(pods: seq<Pod>, pod: Pod)
    ensures Listed(pods + [pod]) == Listed(pods) + if pod.deleting then {} else {pod.name}
  {
    var more := pods + [pod];
    assert more[|pods|] == pod;
    forall n | n in Listed(pods) ensures n in Listed(more) {
      var i :| 0 <= i < |pods| && !pods[i].deleting && pods[i].name == n;
      assert more[i] == pods[i];
    }
  }

  /** The signals from one on: the event it delivers and what follows, or nothing more. */
  lemma NextSignal(signals: seq<Signal>, i: nat, seen: seq<Event>)
    requires i <= |signals|
    ensures if i < |signals| && signals[i].PodEvent?
            then seen + Delivered(signals[i..]) == seen + [signals[i].event] + Delivered(signals[i + 1..])
            else seen + Delivered(signals[i..]) == seen
    ensures Stops(signals[i..]) <==>
            i < |signals| && if signals[i].PodEvent? then Stops(signals[i + 1..]) else signals[i].ClientClosed?
  {
    assert i < |signals| ==> signals[i..][1..] == signals[i + 1..];
  }

  /** The allocator that is told about the pods, of either strategy. */
  datatype Allocator = LeastWeighted(lw: LeastWeightedAllocator) | ConsistentHashing(ch: ConsistentHashingAllocator) {
    function Ledger(): Ledger {
      match this
      case LeastWeighted(lw) => lw.ledger
      case ConsistentHashing(ch) => ch.ledger
    }

    ghost function Objects(): set<object> {
      match this
      case LeastWeighted(lw) => {lw.ledger}
      case ConsistentHashing(ch) => {ch, ch.ledger}
    }

    ghost predicate Valid()
      reads Objects(), Ledger(), Ledger().targetItems.Values`collectorName
    {
      match this
      case LeastWeighted(lw) => lw.Valid()
      case ConsistentHashing(ch) => ch.Valid()
    }

    method SetCollectors(collectors: map<string, Collector>)
      requires Valid() && CollectorsKeyed(collectors)
      modifies Objects(), Ledger().targetItems.Values`collectorName
      ensures Valid() && Ledger().targetItems == old(Ledger().targetItems)
      ensures Ledger().collectors.Keys ==
              if collectors.Keys == {} then old(Ledger().collectors.Keys) else collectors.Keys
    {
      match this {
        case LeastWeighted(lw) => ghost var picks := lw.SetCollectors(collectors);
        case ConsistentHashing(ch) => ch.SetCollectors(collectors);
      }
    }
  }

  class Watcher {
    const allocator: Allocator
    var collectorMap: map<string, Collector>

    constructor (allocator: Allocator)
      ensures this.allocator == allocator && collectorMap == map[]
    {
      this.allocator, collectorMap := allocator, map[];
    }

    /** After `events`, the map follows the pods and the allocator the last nonempty value of the map. */
    ghost predicate Following(known: set<string>, pods: set<string>, items: map<string, Item>, events: seq<Event>)
      reads this, allocator.Objects(), allocator.Ledger(), allocator.Ledger().targetItems.Values`collectorName
    {
      && allocator.Valid() && CollectorsKeyed(collectorMap)
      && Tracks(collectorMap.Keys, allocator.Ledger().collectors.Keys, known, pods, events)
      && allocator.Ledger().targetItems == items
    }

    /** Handles one pod event and hands the whole map to the allocator. */
    method HandleEvent(event: Event, ghost known: set<string>, ghost pods: set<string>, ghost items: map<string, Item>,
                       ghost events: seq<Event>)
      requires Following(known, pods, items, events)
      modifies this`collectorMap, allocator.Objects(), allocator.Ledger().targetItems.Values`collectorName
      ensures Following(known, pods, items, events + [event])
    {
      TracksOneMore(collectorMap.Keys, allocator.Ledger().collectors.Keys, known, pods, events, event);
      UpdateMap(event);
      assert allocator.Valid();
      Report();
    }

    method UpdateMap(event: Event)
      requires CollectorsKeyed(collectorMap)
      modifies this`collectorMap
      ensures CollectorsKeyed(collectorMap)
      ensures collectorMap.Keys == SeenAfter(old(collectorMap.Keys), event)
    {
      match event {
        case Added(name) =>
          CollectorsKeyedAfter(collectorMap, NewCollector(name));
          collectorMap := collectorMap[name := NewCollector(name)];
        case Deleted(name) =>
          CollectorsKeyedWithout(collectorMap, {name});
          collectorMap := collectorMap - {name};
        case Other(_) =>
      }
    }

    /** The callback: an empty map is ignored by the allocator. */
    method Report()
      requires allocator.Valid() && CollectorsKeyed(collectorMap)
      modifies allocator.Objects(), allocator.Ledger().targetItems.Values`collectorName
      ensures allocator.Valid() && allocator.Ledger().targetItems == old(allocator.Ledger().targetItems)
      ensures allocator.Ledger().collectors.Keys ==
              if collectorMap.Keys == {} then old(allocator.Ledger().collectors.Keys) else collectorMap.Keys
    {
      allocator.SetCollectors(collectorMap);
    }

    /** Reads signals until one is not a pod event. Reports whether the client was closed. */
    method RunWatch(signals: seq<Signal>, ghost known: set<string>, ghost pods: set<string>,
                    ghost items: map<string, Item>, ghost events: seq<Event>)
      returns (closed: bool)
      requires Following(known, pods, items, events)
      modifies this`collectorMap, allocator.Objects(), allocator.Ledger().targetItems.Values`collectorName
      ensures Following(known, pods, items, events + Delivered(signals))
      ensures closed <==> Stops(signals)
    {
      var i := 0;
      ghost var seen := events;
      assert signals[0..] == signals;
      while i < |signals|
        invariant 0 <= i <= |signals|
        invariant Following(known, pods, items, seen)
        invariant seen + Delivered(signals[i..]) == events + Delivered(signals)
        invariant Stops(signals) <==> Stops(signals[i..])
      {
        NextSignal(signals, i, seen);
        match signals[i] {
          case ClientClosed => return true;
          case ContextDone => return false;
          case ChannelClosed => return false;
          case NotAPod => return false;
          case PodEvent(event) =>
            HandleEvent(event, known, pods, items, seen);
            seen := seen + [event];
        }
        i := i + 1;
      }
      NextSignal(signals, i, seen);
      return false;
    }

    method List(pods: seq<Pod>)
      requires collectorMap == map[]
      modifies this`collectorMap
      ensures CollectorsKeyed(collectorMap) && collectorMap.Keys == Listed(pods)
    {
      assert forall c :: CollectorKeyed(collectorMap, c);
      for i := 0 to |pods|
        invariant CollectorsKeyed(collectorMap) && collectorMap.Keys == Listed(pods[..i])
      {
        assert pods[..i + 1] == pods[..i] + [pods[i]];
        ListedOneMore(pods[..i], pods[i]);
        if !pods[i].deleting {
          CollectorsKeyedAfter(collectorMap, NewCollector(pods[i].name));
          collectorMap := collectorMap[pods[i].name := NewCollector(pods[i].name)];
        }
      }
      assert pods[..|pods|] == pods;
    }

    method ListAndReport(pods: seq<Pod>)
      requires allocator.Valid() && collectorMap == map[]
      modifies this`collectorMap, allocator.Objects(), allocator.Ledger().targetItems.Values`collectorName
      ensures Following(old(allocator.Ledger().collectors.Keys), Listed(pods), old(allocator.Ledger().targetItems), [])
    {
      List(pods);
      assert allocator.Valid();
      Report();
    }

    /**
     Lists the pods, reports them, and then follows the events across watch restarts. Whatever the events, the
     allocator ends with the most recent nonempty set of pods, and with the very targets it had.
     */
    method Watch(pods: seq<Pod>, sessions: seq<Session>)
      requires allocator.Valid() && collectorMap == map[]
      modifies this`collectorMap, allocator.Objects(), allocator.Ledger().targetItems.Values`collectorName
      ensures Following(old(allocator.Ledger().collectors.Keys), Listed(pods), old(allocator.Ledger().targetItems),
                        DeliveredOver(sessions))
    {
      ghost var known, items := allocator.Ledger().collectors.Keys, allocator.Ledger().targetItems;
      ListAndReport(pods);
      var i := 0;
      ghost var seen: seq<Event> := [];
      assert sessions[0..] == sessions;
      while i < |sessions|
        invariant 0 <= i <= |sessions|
        invariant Following(known, Listed(pods), items, seen)
        invariant seen + DeliveredOver(sessions[i..]) == DeliveredOver(sessions)
      {
        NextSession(sessions, i, seen);
        match sessions[i] {
          case CannotWatch => return;
          case Watching(signals) =>
            var closed := RunWatch(signals, known, Listed(pods), items, seen);
            if closed { return; }
            seen := seen + Delivered(signals);
        }
        i := i + 1;
      }
      NextSession(sessions, i, seen);
    }
  }
}
