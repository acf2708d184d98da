/**
 When an entry is stale.  Over an unreliable network a directory may hold a topic its owner no longer has, or
 hold it at an address or with types it no longer has.  Whether it does can be read off the history of events
 alone, and this module proves exactly how.
 */
module Staleness {
  import opened Topics
  import opened Discovery
  import opened Unreliable

  /** A topic wherever it is, or a topic at one address. */
  datatype Place = Anywhere | At(address: string)

  predicate Matches(place: Place, address: string)
  {
    place.Anywhere? || place.address == address
  }

  /** What an event does to a fact: makes it true, makes it false, or leaves it. */
  datatype Effect = Establishes | Ends | Leaves

  /** The last event that had any effect on a fact established it. */
  ghost predicate Stands(events: seq<Event>, effect: Event -> Effect)
  {
    exists k :: 0 <= k < |events| && StandsSince(events, effect, k)
  }

  ghost predicate StandsSince(events: seq<Event>, effect: Event -> Effect, k: nat)
    requires k < |events|
  {
    effect(events[k]).Establishes? && forall j :: k < j < |events| ==> !effect(events[j]).Ends?
  }

  /** Directory b holds a topic of directory a. */
  ghost predicate Holds(w: World, b: Guid, a: Guid, name: Name, place: Place)
  {
    && b in w.peers && Key(name, a) in w.peers[b].table
    && Matches(place, w.peers[b].table[Key(name, a)].offer.address)
  }

  /** Directory a has the topic. */
  ghost predicate Has(w: World, a: Guid, name: Name, place: Place)
  {
    a in w.peers && name in w.peers[a].local && Matches(place, w.peers[a].local[name].offer.address)
  }

  ghost predicate Stale(w: World, b: Guid, a: Guid, name: Name, place: Place)
  {
    Holds(w, b, a, name, place) && !Has(w, a, name, place)
  }

  /**
   What an event does to b's entry: an announcement from a that arrives at b establishes it, and a withdrawal
   or an exit from a that arrives, an announcement of another place, or b's own leaving ends it.
   */
  function OnEntry(b: Guid, a: Guid, name: Name, place: Place): Event -> Effect
  {
    (e: Event) =>
      match e
      case Arrives(g, letter, _, _) =>
        if g != b || letter.sender != a then Leaves
        else
          (match letter.message
           case Available(n, offer) =>
             if n != name then Leaves else if Matches(place, offer.address) then Establishes else Ends
           case Search(_) => Leaves
           case Remove(n) => if n == name then Ends else Leaves
           case Exit => Ends)
      case Does(action) => if action.Leave? && action.guid == b then Ends else Leaves
  }

  /** What an event does to a's own topic. */
  function OnTopic(a: Guid, name: Name, place: Place): Event -> Effect
  {
    (e: Event) =>
      match e
      case Arrives(_, _, _, _) => Leaves
      case Does(action) =>
        if action.guid != a then Leaves
        else
          (match action
           case Register(_, n, _, offer) => if n == name && Matches(place, offer.address) then Establishes else Leaves
           case Withdraw(_, n) => if n == name then Ends else Leaves
           case Leave(_) => Ends
           case _ => Leaves)
  }

  function Follows(holds: bool, effect: Effect): bool
  {
    effect.Establishes? || (holds && !effect.Ends?)
  }

  lemma StandsStep(events: seq<Event>, e: Event, effect: Event -> Effect)
    ensures Stands(events + [e], effect) <==> Follows(Stands(events, effect), effect(e))
  {
    var all := events + [e];
    if effect(e).Establishes? {
      assert StandsSince(all, effect, |events|);
    } else if effect(e).Ends? {
      forall k | 0 <= k < |all| ensures !StandsSince(all, effect, k) {
        assert all[|events|] == e;
      }
    } else {
      if Stands(events, effect) {
        var k :| 0 <= k < |events| && StandsSince(events, effect, k);
        assert StandsSince(all, effect, k);
      }
      if Stands(all, effect) {
        var k :| 0 <= k < |all| && StandsSince(all, effect, k);
        assert k < |events|;
        assert forall j :: k < j < |events| ==> events[j] == all[j];
        assert StandsSince(events, effect, k);
      }
    }
  }

  lemma HoldsStep(w: World, e: Event, b: Guid, a: Guid, name: Name, place: Place)
    requires Possible(w, e) && a != b
    ensures Holds(After(w, e), b, a, name, place) <==>
            Follows(Holds(w, b, a, name, place), OnEntry(b, a, name, place)(e))
  {
  }

  lemma HasStep(w: World, e: Event, a: Guid, name: Name, place: Place)
    requires Possible(w, e)
    ensures Has(After(w, e), a, name, place) <==> Follows(Has(w, a, name, place), OnTopic(a, name, place)(e))
  {
  }

  lemma {:induction false} HoldsHistory(w: World, past: seq<Event>, events: seq<Event>, v: World,
                                        b: Guid, a: Guid, name: Name, place: Place)
    requires History(w, events, v) && a != b
    requires Holds(w, b, a, name, place) <==> Stands(past, OnEntry(b, a, name, place))
    ensures Holds(v, b, a, name, place) <==> Stands(past + events, OnEntry(b, a, name, place))
    decreases |events|
  {
    hide Stands, Holds, OnEntry, After, Possible;
    if events == [] {
      assert past + events == past;
    } else {
      HoldsStep(w, events[0], b, a, name, place);
      StandsStep(past, events[0], OnEntry(b, a, name, place));
      assert past + events == (past + [events[0]]) + events[1..];
      HoldsHistory(After(w, events[0]), past + [events[0]], events[1..], v, b, a, name, place);
    }
  }

  lemma {:induction false} HasHistory(w: World, past: seq<Event>, events: seq<Event>, v: World,
                                      a: Guid, name: Name, place: Place)
    requires History(w, events, v)
    requires Has(w, a, name, place) <==> Stands(past, OnTopic(a, name, place))
    ensures Has(v, a, name, place) <==> Stands(past + events, OnTopic(a, name, place))
    decreases |events|
  {
    hide Stands, Has, OnTopic, After, Possible;
    if events == [] {
      assert past + events == past;
    } else {
      HasStep(w, events[0], a, name, place);
      StandsStep(past, events[0], OnTopic(a, name, place));
      assert past + events == (past + [events[0]]) + events[1..];
      HasHistory(After(w, events[0]), past + [events[0]], events[1..], v, a, name, place);
    }
  }

  /**
   In every history, b holds a topic of a if and only if an announcement of it from a has arrived at b after
   which nothing arrived from a to end it and b did not leave.
   */
  lemma EntryIffAnnouncedLast(events: seq<Event>, w: World, b: Guid, a: Guid, name: Name, place: Place)
    requires History(EMPTY_WORLD, events, w) && a != b
    ensures Holds(w, b, a, name, place) <==> Stands(events, OnEntry(b, a, name, place))
  {
    HoldsHistory(EMPTY_WORLD, [], events, w, b, a, name, place);
    assert [] + events == events;
  }

  /** In every history, a has a topic if and only if it registered it and has not withdrawn it or left since. */
  lemma TopicIffRegisteredLast(events: seq<Event>, w: World, a: Guid, name: Name, place: Place)
    requires History(EMPTY_WORLD, events, w)
    ensures Has(w, a, name, place) <==> Stands(events, OnTopic(a, name, place))
  {
    HasHistory(EMPTY_WORLD, [], events, w, a, name, place);
    assert [] + events == events;
  }

  /**
   An entry is stale, by its name or by its address, if and only if the last message about it to arrive
   announced it and the last thing its owner did about it was not to register it.
   */
  lemma StaleIff(events: seq<Event>, w: World, b: Guid, a: Guid, name: Name, place: Place)
    requires History(EMPTY_WORLD, events, w) && a != b
    ensures Stale(w, b, a, name, place) <==>
            Stands(events, OnEntry(b, a, name, place)) && !Stands(events, OnTopic(a, name, place))
  {
    EntryIffAnnouncedLast(events, w, b, a, name, place);
    TopicIffRegisteredLast(events, w, a, name, place);
  }

  // ---------------------------------------------------------------- whole offers

  /** An entry whenever it was made, or one with a certain timestamp. */
  datatype Time = Anytime | Exactly(now: int)

  predicate Timed(time: Time, now: int)
  {
    time.Anytime? || time.now == now
  }

  /** Directory b holds exactly this offer of a, stored at that time. */
  ghost predicate HoldsOffer(w: World, b: Guid, a: Guid, name: Name, offer: Offer, time: Time)
  {
    && b in w.peers && Key(name, a) in w.peers[b].table
    && var topic := w.peers[b].table[Key(name, a)];
       topic.offer == offer && Timed(time, topic.timestamp)
  }

  ghost predicate HasOffer(w: World, a: Guid, name: Name, offer: Offer, time: Time)
  {
    && a in w.peers && name in w.peers[a].local
    && var topic := w.peers[a].local[name];
       topic.offer == offer && Timed(time, topic.timestamp)
  }

  /** Directory b holds an offer that a does not make: the topic, its address, its socket type or its types are old. */
  ghost predicate StaleOffer(w: World, b: Guid, a: Guid, name: Name, offer: Offer)
  {
    HoldsOffer(w, b, a, name, offer, Anytime) && !HasOffer(w, a, name, offer, Anytime)
  }

  predicate Announces(e: Event, b: Guid, a: Guid, name: Name, offer: Offer, time: Time)
  {
    e.Arrives? && e.guid == b && e.letter == Letter(a, Available(name, offer)) && Timed(time, e.now)
  }

  /** An announcement is only taken over when b holds nothing of a under that name at that address. */
  ghost predicate Taken(events: seq<Event>, b: Guid, a: Guid, name: Name, offer: Offer, time: Time)
  {
    exists k :: 0 <= k < |events| && TakenSince(events, b, a, name, offer, time, k)
  }

  ghost predicate TakenSince(
    events: seq<Event>, b: Guid, a: Guid, name: Name, offer: Offer, time: Time, k: nat)
    requires k < |events|
  {
    var entry := OnEntry(b, a, name, At(offer.address));
    && Announces(events[k], b, a, name, offer, time) && !Stands(events[..k], entry)
    && forall j :: k < j < |events| ==> !entry(events[j]).Ends?
  }

  /** What an event does to a's own topic, as an offer made at some time. */
  function OnOffer(a: Guid, name: Name, offer: Offer, time: Time): Event -> Effect
  {
    (e: Event) =>
      match e
      case Arrives(_, _, _, _) => Leaves
      case Does(action) =>
        if action.guid != a then Leaves
        else
          (match action
           case Register(_, n, now, o) =>
             if n == name && o == offer && Timed(time, now) then Establishes else Leaves
           case Withdraw(_, n) => if n == name then Ends else Leaves
           case Leave(_) => Ends
           case _ => Leaves)
  }

  lemma TakenNow(events: seq<Event>, e: Event, b: Guid, a: Guid, name: Name, offer: Offer, time: Time)
    requires Announces(e, b, a, name, offer, time) && !Stands(events, OnEntry(b, a, name, At(offer.address)))
    ensures Taken(events + [e], b, a, name, offer, time)
  {
    hide Stands, Announces;
    assert (events + [e])[..|events|] == events;
    assert TakenSince(events + [e], b, a, name, offer, time, |events|);
  }

  lemma TakenBefore(events: seq<Event>, e: Event, b: Guid, a: Guid, name: Name, offer: Offer, time: Time)
    requires !OnEntry(b, a, name, At(offer.address))(e).Ends?
    requires Taken(events, b, a, name, offer, time)
    ensures Taken(events + [e], b, a, name, offer, time)
  {
    hide Stands, Announces, OnEntry;
    var all := events + [e];
    var k :| 0 <= k < |events| && TakenSince(events, b, a, name, offer, time, k);
    assert all[..k] == events[..k];
    assert TakenSince(all, b, a, name, offer, time, k);
  }

  lemma TakenWhen(events: seq<Event>, e: Event, b: Guid, a: Guid, name: Name, offer: Offer, time: Time)
    requires Taken(events + [e], b, a, name, offer, time)
    ensures var entry := OnEntry(b, a, name, At(offer.address));
            || (Announces(e, b, a, name, offer, time) && !Stands(events, entry))
            || (Taken(events, b, a, name, offer, time) && !entry(e).Ends?)
  {
    hide Stands, Announces, OnEntry;
    var all := events + [e];
    var k :| 0 <= k < |all| && TakenSince(all, b, a, name, offer, time, k);
    if k == |events| {
      assert all[..k] == events;
    } else {
      assert all[..k] == events[..k] && all[|events|] == e;
      assert forall j :: k < j < |events| ==> events[j] == all[j];
      assert TakenSince(events, b, a, name, offer, time, k);
    }
  }

  /** What one event does to the offer b holds: an announcement at an address that b holds changes nothing. */
  lemma HoldsOfferStep(w: World, e: Event, b: Guid, a: Guid, name: Name, offer: Offer, time: Time)
    requires Possible(w, e) && a != b
    ensures var place := At(offer.address);
            HoldsOffer(After(w, e), b, a, name, offer, time) <==>
            || (Announces(e, b, a, name, offer, time) && !Holds(w, b, a, name, place))
            || (HoldsOffer(w, b, a, name, offer, time) && !OnEntry(b, a, name, place)(e).Ends?)
  {
  }

  lemma HasOfferStep(w: World, e: Event, a: Guid, name: Name, offer: Offer, time: Time)
    requires Possible(w, e)
    ensures HasOffer(After(w, e), a, name, offer, time) <==>
            Follows(HasOffer(w, a, name, offer, time), OnOffer(a, name, offer, time)(e))
  {
  }

  lemma {:induction false} HoldsOfferHistory(w: World, past: seq<Event>, events: seq<Event>, v: World,
                                             b: Guid, a: Guid, name: Name, offer: Offer, time: Time)
    requires History(w, events, v) && a != b
    requires Holds(w, b, a, name, At(offer.address)) <==> Stands(past, OnEntry(b, a, name, At(offer.address)))
    requires HoldsOffer(w, b, a, name, offer, time) <==> Taken(past, b, a, name, offer, time)
    ensures HoldsOffer(v, b, a, name, offer, time) <==> Taken(past + events, b, a, name, offer, time)
    decreases |events|
  {
    hide Stands, Holds, HoldsOffer, Taken, OnEntry, Announces, After, Possible;
    if events == [] {
      assert past + events == past;
    } else {
      var e, place := events[0], At(offer.address);
      HoldsStep(w, e, b, a, name, place);
      StandsStep(past, e, OnEntry(b, a, name, place));
      HoldsOfferStep(w, e, b, a, name, offer, time);
      TakenStep(past, e, b, a, name, offer, time);
      assert past + events == (past + [e]) + events[1..];
      HoldsOfferHistory(After(w, e), past + [e], events[1..], v, b, a, name, offer, time);
    }
  }

  lemma TakenStep(past: seq<Event>, e: Event, b: Guid, a: Guid, name: Name, offer: Offer, time: Time)
    ensures var entry := OnEntry(b, a, name, At(offer.address));
            Taken(past + [e], b, a, name, offer, time) <==>
            || (Announces(e, b, a, name, offer, time) && !Stands(past, entry))
            || (Taken(past, b, a, name, offer, time) && !entry(e).Ends?)
  {
    hide Stands, Taken, OnEntry, Announces;
    var entry := OnEntry(b, a, name, At(offer.address));
    if Announces(e, b, a, name, offer, time) && !Stands(past, entry) {
      TakenNow(past, e, b, a, name, offer, time);
    } else if Taken(past, b, a, name, offer, time) && !entry(e).Ends? {
      TakenBefore(past, e, b, a, name, offer, time);
    }
    if Taken(past + [e], b, a, name, offer, time) {
      TakenWhen(past, e, b, a, name, offer, time);
    }
  }

  lemma {:induction false} HasOfferHistory(w: World, past: seq<Event>, events: seq<Event>, v: World,
                                           a: Guid, name: Name, offer: Offer, time: Time)
    requires History(w, events, v)
    requires HasOffer(w, a, name, offer, time) <==> Stands(past, OnOffer(a, name, offer, time))
    ensures HasOffer(v, a, name, offer, time) <==> Stands(past + events, OnOffer(a, name, offer, time))
    decreases |events|
  {
    hide Stands, HasOffer, OnOffer, After, Possible;
    if events == [] {
      assert past + events == past;
    } else {
      HasOfferStep(w, events[0], a, name, offer, time);
      StandsStep(past, events[0], OnOffer(a, name, offer, time));
      assert past + events == (past + [events[0]]) + events[1..];
      HasOfferHistory(After(w, events[0]), past + [events[0]], events[1..], v, a, name, offer, time);
    }
  }

  /**
   In every history, b holds exactly this offer of a if and only if an announcement of it arrived while b held
   nothing of a under that name at that address, and nothing has ended the entry since.
   */
  lemma OfferIffTaken(events: seq<Event>, w: World, b: Guid, a: Guid, name: Name, offer: Offer, time: Time)
    requires History(EMPTY_WORLD, events, w) && a != b
    ensures HoldsOffer(w, b, a, name, offer, time) <==> Taken(events, b, a, name, offer, time)
  {
    HoldsOfferHistory(EMPTY_WORLD, [], events, w, b, a, name, offer, time);
    assert [] + events == events;
  }

  /** In every history, a makes an offer if and only if it registered it, and has not withdrawn it or left since. */
  lemma OfferIffRegistered(events: seq<Event>, w: World, a: Guid, name: Name, offer: Offer, time: Time)
    requires History(EMPTY_WORLD, events, w)
    ensures HasOffer(w, a, name, offer, time) <==> Stands(events, OnOffer(a, name, offer, time))
  {
    hide Stands, HasOffer;
    NothingYet(a, name, offer, time);
    HasOfferHistory(EMPTY_WORLD, [], events, w, a, name, offer, time);
    assert [] + events == events;
  }

  lemma NothingYet(a: Guid, name: Name, offer: Offer, time: Time)
    ensures !HasOffer(EMPTY_WORLD, a, name, offer, time) && !Stands([], OnOffer(a, name, offer, time))
  {
  }

  /**
   An entry is stale in any part, if and only if its offer was taken over and the last thing its owner did
   about the topic was not to register that offer.
   */
  lemma StaleOfferIff(events: seq<Event>, w: World, b: Guid, a: Guid, name: Name, offer: Offer)
    requires History(EMPTY_WORLD, events, w) && a != b
    ensures StaleOffer(w, b, a, name, offer) <==>
            Taken(events, b, a, name, offer, Anytime) && !Stands(events, OnOffer(a, name, offer, Anytime))
  {
    hide Stands, Taken, HoldsOffer, HasOffer;
    OfferIffTaken(events, w, b, a, name, offer, Anytime);
    OfferIffRegistered(events, w, a, name, offer, Anytime);
  }

  /** The timestamp of an entry is the time of the arrival, k, that took it over. */
  lemma EntryIsTimed(events: seq<Event>, w: World, b: Guid, a: Guid, name: Name) returns (k: nat)
    requires History(EMPTY_WORLD, events, w) && a != b && b in w.peers && Key(name, a) in w.peers[b].table
    ensures k < |events|
    ensures var topic := w.peers[b].table[Key(name, a)];
            TakenSince(events, b, a, name, topic.offer, Anytime, k) && events[k].now == topic.timestamp
  {
    hide History, Stands;
    var topic := w.peers[b].table[Key(name, a)];
    var time := Exactly(topic.timestamp);
    OfferIffTaken(events, w, b, a, name, topic.offer, time);
    k :| 0 <= k < |events| && TakenSince(events, b, a, name, topic.offer, time, k);
  }

  /** The timestamp of a directory's own topic is the time of its registration, k. */
  lemma TopicIsTimed(events: seq<Event>, w: World, a: Guid, name: Name) returns (k: nat)
    requires History(EMPTY_WORLD, events, w) && a in w.peers && name in w.peers[a].local
    ensures k < |events|
    ensures var topic := w.peers[a].local[name];
            && StandsSince(events, OnOffer(a, name, topic.offer, Anytime), k)
            && events[k] == Does(Register(a, name, topic.timestamp, topic.offer))
  {
    hide History;
    var topic := w.peers[a].local[name];
    var time := Exactly(topic.timestamp);
    OfferIffRegistered(events, w, a, name, topic.offer, time);
    k :| 0 <= k < |events| && StandsSince(events, OnOffer(a, name, topic.offer, time), k);
    assert forall e: Event :: OnOffer(a, name, topic.offer, Anytime)(e).Ends? ==>
        OnOffer(a, name, topic.offer, time)(e).Ends?;
  }

  /** Entries that are stale by name or by address are stale as offers. */
  lemma StaleIsStaleOffer(w: World, b: Guid, a: Guid, name: Name, place: Place)
    requires Stale(w, b, a, name, place)
    ensures StaleOffer(w, b, a, name, w.peers[b].table[Key(name, a)].offer)
  {
  }

  // ---------------------------------------------------------------- the conditions can be met

  lemma TwoSteps(w: World, e: Event, f: Event, v: World, events: seq<Event>, u: World)
    requires Possible(w, e) && Possible(After(w, e), f) && After(After(w, e), f) == v && History(v, events, u)
    ensures History(w, [e, f] + events, u)
  {
    hide Possible, After;
    assert ([e, f] + events)[1..] == [f] + events;
    assert ([f] + events)[1..] == events;
  }

  lemma NoEvents(w: World)
    ensures History(w, [], w)
  {
  }

  const NOBODY := Peer(map[], map[])

  lemma TwoJoin(a: Guid, b: Guid)
    requires a != b
    ensures var e, f := Does(Join(a)), Does(Join(b));
            && Possible(EMPTY_WORLD, e) && Possible(After(EMPTY_WORLD, e), f)
            && After(After(EMPTY_WORLD, e), f) == World(map[a := NOBODY, b := NOBODY], {})
  {
  }

  lemma RegisterAndWithdraw(a: Guid, b: Guid, name: Name, offer: Offer)
    requires a != b
    ensures var w := World(map[a := NOBODY, b := NOBODY], {});
            var e, f := Does(Register(a, name, 0, offer)), Does(Withdraw(a, name));
            && Possible(w, e) && Possible(After(w, e), f)
            && After(After(w, e), f) == w.(letters := {Letter(a, Available(name, offer)), Letter(a, Remove(name))})
  {
    var w := World(map[a := NOBODY, b := NOBODY], {});
    var topic := Topic(name, 0, offer, a);
    var owner := Peer(map[name := topic], map[Key(name, a) := topic]);
    assert Letters(a, [Available(name, offer)]) == {Letter(a, Available(name, offer))};
    assert Letters(a, [Remove(name)]) == {Letter(a, Remove(name))};
    assert After(w, Does(Register(a, name, 0, offer)))
        == World(map[a := owner, b := NOBODY], {Letter(a, Available(name, offer))});
  }

  lemma ArriveInReverse(a: Guid, b: Guid, name: Name, offer: Offer)
    requires a != b
    ensures var w := World(map[a := NOBODY, b := NOBODY],
                           {Letter(a, Available(name, offer)), Letter(a, Remove(name))});
            var e := Arrives(b, Letter(a, Remove(name)), 0, []);
            var f := Arrives(b, Letter(a, Available(name, offer)), 0, []);
            && Possible(w, e) && Possible(After(w, e), f)
            && After(After(w, e), f)
               == w.(peers := w.peers[b := Peer(map[], map[Key(name, a) := Topic(name, 0, offer, a)])])
  {
    assert Letters(b, []) == {};
  }

  /**
   The order of delivery matters: a withdrawal that overtakes the announcement it cancels leaves the receiver
   with a topic its owner no longer has, although every letter that was ever sent has arrived.
   */
  lemma ReorderingLeavesStaleTopic(a: Guid, b: Guid, name: Name, offer: Offer) returns (events: seq<Event>, w: World)
    requires a != b
    ensures History(EMPTY_WORLD, events, w)
    ensures a in w.peers && b in w.peers && w.peers[a].local == map[] && Stale(w, b, a, name, Anywhere)
    ensures forall letter :: letter in w.letters ==>
              exists e :: e in events && e.Arrives? && e.guid == b && e.letter == letter
  {
    hide Possible, After, History;
    var announced, withdrawn := Letter(a, Available(name, offer)), Letter(a, Remove(name));
    var w2 := World(map[a := NOBODY, b := NOBODY], {});
    var w4 := w2.(letters := {announced, withdrawn});
    w := w4.(peers := w4.peers[b := Peer(map[], map[Key(name, a) := Topic(name, 0, offer, a)])]);
    var e4, e5 := Arrives(b, withdrawn, 0, []), Arrives(b, announced, 0, []);
    var late: seq<Event> := [e4, e5];
    var middle: seq<Event> := [Does(Register(a, name, 0, offer)), Does(Withdraw(a, name))];
    TwoJoin(a, b);
    RegisterAndWithdraw(a, b, name, offer);
    ArriveInReverse(a, b, name, offer);
    NoEvents(w);
    TwoSteps(w4, e4, e5, w, [], w);
    assert late + [] == late;
    TwoSteps(w2, middle[0], middle[1], w4, late, w);
    TwoSteps(EMPTY_WORLD, Does(Join(a)), Does(Join(b)), w2, middle + late, w);
    events := [Does(Join(a)), Does(Join(b))] + (middle + late);
    assert e4 == events[4] && e5 == events[5];
  }

  function Owner(a: Guid, name: Name, offer: Offer): Peer
  {
    var topic := Topic(name, 0, offer, a);
    Peer(map[name := topic], map[Key(name, a) := topic])
  }

  function Holder(a: Guid, name: Name, offer: Offer): Peer
  {
    Peer(map[], map[Key(name, a) := Topic(name, 0, offer, a)])
  }

  lemma RegisterAndArrive(a: Guid, b: Guid, name: Name, o: Offer)
    requires a != b
    ensures var w := World(map[a := NOBODY, b := NOBODY], {});
            var e, f := Does(Register(a, name, 0, o)), Arrives(b, Letter(a, Available(name, o)), 0, []);
            && Possible(w, e) && Possible(After(w, e), f)
            && After(After(w, e), f)
               == World(map[a := Owner(a, name, o), b := Holder(a, name, o)], {Letter(a, Available(name, o))})
  {
    var w := World(map[a := NOBODY, b := NOBODY], {});
    assert Letters(a, [Available(name, o)]) == {Letter(a, Available(name, o))};
    assert Letters(b, []) == {};
    assert After(w, Does(Register(a, name, 0, o)))
        == World(map[a := Owner(a, name, o), b := NOBODY], {Letter(a, Available(name, o))});
  }

  lemma WithdrawAndRegister(a: Guid, b: Guid, name: Name, o: Offer, p: Offer)
    requires a != b
    ensures var w := World(map[a := Owner(a, name, o), b := Holder(a, name, o)], {Letter(a, Available(name, o))});
            var e, f := Does(Withdraw(a, name)), Does(Register(a, name, 0, p));
            && Possible(w, e) && Possible(After(w, e), f)
            && After(After(w, e), f) ==
               World(w.peers[a := Owner(a, name, p)],
                     w.letters + {Letter(a, Remove(name)), Letter(a, Available(name, p))})
  {
    var w := World(map[a := Owner(a, name, o), b := Holder(a, name, o)], {Letter(a, Available(name, o))});
    assert Letters(a, [Remove(name)]) == {Letter(a, Remove(name))};
    assert Letters(a, [Available(name, p)]) == {Letter(a, Available(name, p))};
    assert After(w, Does(Withdraw(a, name)))
        == World(w.peers[a := NOBODY], w.letters + {Letter(a, Remove(name))});
  }

  /** An announcement of another offer at the same address changes nothing, however often it arrives. */
  lemma ArriveTwice(w: World, a: Guid, b: Guid, name: Name, o: Offer, p: Offer)
    requires a != b && b in w.peers && w.peers[b] == Holder(a, name, o) && o.address == p.address
    requires Letter(a, Available(name, p)) in w.letters
    ensures var e := Arrives(b, Letter(a, Available(name, p)), 0, []);
            Possible(w, e) && Possible(After(w, e), e) && After(After(w, e), e) == w
  {
    assert Letters(b, []) == {};
    assert After(w, Arrives(b, Letter(a, Available(name, p)), 0, [])) == w;
  }

  /**
   A lost withdrawal is enough: when the owner registers the topic again at the same address with other types,
   the receiver keeps the old types, although the new announcement has arrived, and arrived again.
   */
  lemma LossLeavesStaleOffer(a: Guid, b: Guid, name: Name, o: Offer, p: Offer) returns (events: seq<Event>, w: World)
    requires a != b && o != p && o.address == p.address
    ensures History(EMPTY_WORLD, events, w)
    ensures StaleOffer(w, b, a, name, o) && HasOffer(w, a, name, p, Anytime)
    ensures forall place :: !Stale(w, b, a, name, place)
    ensures Announces(events[|events| - 1], b, a, name, p, Anytime)
  {
    hide Possible, After, History;
    var first, second := Letter(a, Available(name, o)), Letter(a, Available(name, p));
    var w2 := World(map[a := NOBODY, b := NOBODY], {});
    var w4 := World(map[a := Owner(a, name, o), b := Holder(a, name, o)], {first});
    w := World(w4.peers[a := Owner(a, name, p)], w4.letters + {Letter(a, Remove(name)), second});
    var again := Arrives(b, second, 0, []);
    var late: seq<Event> := [again, again];
    var change: seq<Event> := [Does(Withdraw(a, name)), Does(Register(a, name, 0, p))];
    var start: seq<Event> := [Does(Register(a, name, 0, o)), Arrives(b, first, 0, [])];
    TwoJoin(a, b);
    RegisterAndArrive(a, b, name, o);
    WithdrawAndRegister(a, b, name, o, p);
    ArriveTwice(w, a, b, name, o, p);
    NoEvents(w);
    TwoSteps(w, again, again, w, [], w);
    assert late + [] == late;
    TwoSteps(w4, change[0], change[1], w, late, w);
    TwoSteps(w2, start[0], start[1], w4, change + late, w);
    TwoSteps(EMPTY_WORLD, Does(Join(a)), Does(Join(b)), w2, start + (change + late), w);
    events := [Does(Join(a)), Does(Join(b))] + (start + (change + late));
    assert events[7] == again && |events| == 8;
  }
}
