/**
 The same directories over a network that may lose, duplicate and reorder datagrams.

 Every datagram ever sent stays deliverable to anyone, any number of times, in any order.
 What survives is provenance: nobody holds a topic that its owner did not register.
 */
module Unreliable {
  import opened Topics
  import opened Discovery

  datatype Peer = Peer(local: map<Name, Topic>, table: Table)

  datatype Letter = Letter(sender: Guid, message: Message)

  datatype World = World(peers: map<Guid, Peer>, letters: set<Letter>)

  /** The protocol's own actions; a delivery names the letter that arrives. */
  datatype Event =
    | Does(action: Action)
    | Arrives(guid: Guid, letter: Letter, now: int, order: seq<Name>)

  const EMPTY_WORLD := World(map[], {})

  function Letters(sender: Guid, messages: seq<Message>): set<Letter>
  {
    set message | message in messages :: Letter(sender, message)
  }

  ghost predicate Possible(w: World, e: Event)
  {
    match e
    case Arrives(g, letter, _, order) =>
      && g in w.peers && letter in w.letters && letter.sender != g
      && forall name :: name in order <==> name in w.peers[g].local
    case Does(Join(g)) => g !in w.peers
    case Does(Register(g, name, _, _)) => g in w.peers && name !in w.peers[g].local
    case Does(Deliver(_, _, _, _)) => false
    case Does(a) => a.guid in w.peers
  }

  ghost function After(w: World, e: Event): World
    requires Possible(w, e)
  {
    match e
    case Arrives(g, letter, now, order) =>
      var p := w.peers[g];
      World(w.peers[g := p.(table := Receive(p.table, letter.sender, letter.message, now))],
            w.letters + Letters(g, Answers(p.local, letter.message, order)))
    case Does(a) =>
      if a.Join? then w.(peers := w.peers[a.guid := Peer(map[], map[])])
      else if a.Deliver? then w
      else
        var p := w.peers[a.guid];
        var node := Node(p.local, p.table, map[]);
        var after := Act(node, a);
        var peers := w.peers[a.guid := Peer(after.local, after.table)];
        World(if a.Leave? then peers - {a.guid} else peers, w.letters + Letters(a.guid, Emitted(node, a)))
  }

  ghost predicate History(w: World, events: seq<Event>, v: World)
    decreases |events|
  {
    if events == [] then w == v
    else Possible(w, events[0]) && History(After(w, events[0]), events[1..], v)
  }

  /** `guid` registered the topic locally at some point of the history. */
  ghost predicate Registered(events: seq<Event>, guid: Guid, name: Name, offer: Offer)
  {
    exists e :: e in events && IsRegistration(e, guid, name, offer)
  }

  ghost predicate IsRegistration(e: Event, guid: Guid, name: Name, offer: Offer)
  {
    e.Does? && e.action.Register? && e.action.guid == guid && e.action.name == name && e.action.offer == offer
  }

  /** Local topics and the entries under the directory's own guid are the same topics. */
  ghost predicate OwnTopics(guid: Guid, p: Peer)
  {
    Own(guid, p.local, p.table)
  }

  ghost predicate LetterTrue(events: seq<Event>, letter: Letter)
  {
    letter.message.Available? ==> Registered(events, letter.sender, letter.message.name, letter.message.offer)
  }

  ghost predicate TableTrue(events: seq<Event>, table: Table)
  {
    WellKeyed(table) && forall key :: key in table ==> Registered(events, key.guid, key.name, table[key].offer)
  }

  ghost predicate Truthful(w: World, past: seq<Event>)
  {
    && (forall letter :: letter in w.letters ==> LetterTrue(past, letter))
    && (forall g :: g in w.peers ==> OwnTopics(g, w.peers[g]) && TableTrue(past, w.peers[g].table))
  }

  lemma Remembered(past: seq<Event>, e: Event, guid: Guid, name: Name, offer: Offer)
    requires Registered(past, guid, name, offer) || IsRegistration(e, guid, name, offer)
    ensures Registered(past + [e], guid, name, offer)
  {
    if Registered(past, guid, name, offer) {
      var r :| r in past && IsRegistration(r, guid, name, offer);
      assert r in past + [e];
    } else {
      assert e in past + [e];
    }
  }

  /** What the table holds after a step comes from the table before or from the message that arrived. */
  lemma PeerTruthful(p: Peer, g: Guid, past: seq<Event>, e: Event, table: Table)
    requires TableTrue(past, p.table) && WellKeyed(table)
    requires forall key :: key in table ==>
               (key in p.table && table[key] == p.table[key])
               || Registered(past, key.guid, key.name, table[key].offer)
               || IsRegistration(e, key.guid, key.name, table[key].offer)
    ensures TableTrue(past + [e], table)
  {
    forall key | key in table ensures Registered(past + [e], key.guid, key.name, table[key].offer) {
      Remembered(past, e, key.guid, key.name, table[key].offer);
    }
  }

  /** The messages a directory emits offer only what it has registered. */
  lemma EmittedTrue(g: Guid, p: Peer, past: seq<Event>, e: Event, messages: seq<Message>)
    requires OwnTopics(g, p) && TableTrue(past, p.table)
    requires forall m :: m in messages && m.Available? ==>
               (m.name in p.local && p.local[m.name].offer == m.offer) || IsRegistration(e, g, m.name, m.offer)
    ensures forall letter :: letter in Letters(g, messages) ==> LetterTrue(past + [e], letter)
  {
    forall letter | letter in Letters(g, messages) && letter.message.Available?
      ensures LetterTrue(past + [e], letter)
    {
      var m := letter.message;
      if m.name in p.local && p.local[m.name].offer == m.offer {
        assert Key(m.name, g) in p.table;
      }
      Remembered(past, e, g, m.name, m.offer);
    }
  }

  lemma OldLettersTrue(w: World, past: seq<Event>, e: Event)
    requires forall letter :: letter in w.letters ==> LetterTrue(past, letter)
    ensures forall letter :: letter in w.letters ==> LetterTrue(past + [e], letter)
  {
    forall letter | letter in w.letters && letter.message.Available?
      ensures LetterTrue(past + [e], letter)
    {
      Remembered(past, e, letter.sender, letter.message.name, letter.message.offer);
    }
  }

  lemma NewLettersTrue(w: World, past: seq<Event>, e: Event)
    requires Truthful(w, past) && Possible(w, e)
    ensures forall letter :: letter in After(w, e).letters ==> LetterTrue(past + [e], letter)
  {
    OldLettersTrue(w, past, e);
    match e
    case Arrives(g, letter, now, order) =>
      var local := w.peers[g].local;
      if letter.message.Search? {
        RepliesEcho(local, letter.message.names, order);
      }
      EmittedTrue(g, w.peers[g], past, e, Answers(local, letter.message, order));
    case Does(a) =>
      if !a.Join? {
        var p := w.peers[a.guid];
        EmittedTrue(a.guid, p, past, e, Emitted(Node(p.local, p.table, map[]), a));
      }
  }

  /** What a message from another directory puts in a table, its sender had registered. */
  lemma ReceiverTruthful(p: Peer, g: Guid, past: seq<Event>, e: Event)
    requires OwnTopics(g, p) && TableTrue(past, p.table)
    requires e.Arrives? && e.letter.sender != g && LetterTrue(past, e.letter)
    ensures OwnTopics(g, p.(table := Receive(p.table, e.letter.sender, e.letter.message, e.now)))
    ensures TableTrue(past + [e], Receive(p.table, e.letter.sender, e.letter.message, e.now))
  {
    PeerTruthful(p, g, past, e, Receive(p.table, e.letter.sender, e.letter.message, e.now));
  }

  lemma ActorTruthful(p: Peer, past: seq<Event>, e: Event)
    requires e.Does? && !e.action.Deliver?
    requires e.action.Register? ==> e.action.name !in p.local
    requires OwnTopics(e.action.guid, p) && TableTrue(past, p.table)
    ensures var after := Act(Node(p.local, p.table, map[]), e.action);
            OwnTopics(e.action.guid, Peer(after.local, after.table)) && TableTrue(past + [e], after.table)
  {
    match e.action {
      case Register(g, name, now, offer) => OwnPut(g, p.local, p.table, Topic(name, now, offer, g));
      case Withdraw(g, name) => OwnDrop(g, p.local, p.table, g, name);
      case _ =>
    }
    PeerTruthful(p, e.action.guid, past, e, Act(Node(p.local, p.table, map[]), e.action).table);
  }

  lemma TruthfulStep(w: World, past: seq<Event>, e: Event)
    requires Truthful(w, past) && Possible(w, e)
    ensures Truthful(After(w, e), past + [e])
  {
    NewLettersTrue(w, past, e);
    forall g | g in After(w, e).peers
      ensures OwnTopics(g, After(w, e).peers[g]) && TableTrue(past + [e], After(w, e).peers[g].table)
    {
      if g !in w.peers {
        assert After(w, e).peers[g] == Peer(map[], map[]);
      } else if e.Arrives? && e.guid == g {
        ReceiverTruthful(w.peers[g], g, past, e);
      } else if e.Does? && e.action.guid == g {
        ActorTruthful(w.peers[g], past, e);
      } else {
        PeerTruthful(w.peers[g], g, past, e, w.peers[g].table);
      }
    }
  }

  lemma {:induction false} TruthfulHistory(w: World, past: seq<Event>, events: seq<Event>, v: World)
    requires Truthful(w, past) && History(w, events, v)
    ensures Truthful(v, past + events)
    decreases |events|
  {
    if events == [] {
      assert past + events == past;
    } else {
      TruthfulStep(w, past, events[0]);
      assert past + events == (past + [events[0]]) + events[1..];
      TruthfulHistory(After(w, events[0]), past + [events[0]], events[1..], v);
    }
  }

  /**
   Whatever the network does, every entry any directory holds was registered by the directory it is
   filed under, with that name and offer; and every directory's own entries are its local topics.
   */
  lemma Provenance(events: seq<Event>, w: World, g: Guid)
    requires History(EMPTY_WORLD, events, w) && g in w.peers
    ensures OwnTopics(g, w.peers[g])
    ensures forall key :: key in w.peers[g].table ==>
              && w.peers[g].table[key].name == key.name && w.peers[g].table[key].guid == key.guid
              && Registered(events, key.guid, key.name, w.peers[g].table[key].offer)
  {
    TruthfulHistory(EMPTY_WORLD, [], events, w);
    assert [] + events == events;
  }

  /** No datagram changes the receiver's local topics or the entries under its own guid. */
  lemma ArrivalKeepsOwnTopics(w: World, e: Event, name: Name)
    requires Possible(w, e) && e.Arrives?
    ensures After(w, e).peers[e.guid].local == w.peers[e.guid].local
    ensures Key(name, e.guid) in After(w, e).peers[e.guid].table <==> Key(name, e.guid) in w.peers[e.guid].table
    ensures Key(name, e.guid) in w.peers[e.guid].table ==>
              After(w, e).peers[e.guid].table[Key(name, e.guid)] == w.peers[e.guid].table[Key(name, e.guid)]
  {
  }

  // ---------------------------------------------------------------- the reliable network is a special case

  /** The same directories, with everything in flight among the letters ever sent. */
  ghost predicate Simulates(w: World, s: System)
  {
    && w.peers.Keys == s.nodes.Keys
    && (forall g :: g in s.nodes ==> w.peers[g] == Peer(s.nodes[g].local, s.nodes[g].table))
    && (forall i, g, m :: i in s.nodes && m in Pending(s.nodes[i], g) ==> Letter(g, m) in w.letters)
  }

  ghost function Translate(s: System, a: Action): Event
    requires Enabled(s, a)
  {
    if a.Deliver? then Arrives(a.guid, Letter(a.sender, Pending(s.nodes[a.guid], a.sender)[0]), a.now, a.order)
    else Does(a)
  }

  lemma InFlightStep(s: System, a: Action, i: Guid, g: Guid, m: Message)
    requires Enabled(s, a) && i in Next(s, a).nodes && m in Pending(Next(s, a).nodes[i], g)
    ensures m in Sent(s, a, g) || (i in s.nodes && m in Pending(s.nodes[i], g))
  {
    if i in s.nodes && i == a.guid {
      assert Next(s, a).nodes[i] == Act(s.nodes[i], a);
    }
  }

  lemma ActIgnoresQueues(node: Node, a: Action)
    requires a.Deliver? ==> Pending(node, a.sender) != []
    ensures var after := Act(node, a);
            if a.Deliver? then
              && after.local == node.local
              && after.table == Receive(node.table, a.sender, Pending(node, a.sender)[0], a.now)
            else
              var bare := Act(Node(node.local, node.table, map[]), a);
              after.local == bare.local && after.table == bare.table
  {
    hide Receive;
  }

  lemma SameNames(s: System, a: Action, w: World)
    requires Enabled(s, a) && Simulates(w, s) && Possible(w, Translate(s, a))
    ensures After(w, Translate(s, a)).peers.Keys == Next(s, a).nodes.Keys
  {
    hide Letters, Answers, Emitted, Act, Receive, Enqueue;
  }

  lemma SamePeer(s: System, a: Action, w: World, g: Guid)
    requires Enabled(s, a) && Simulates(w, s) && Possible(w, Translate(s, a)) && g in Next(s, a).nodes
    ensures g in After(w, Translate(s, a)).peers
    ensures After(w, Translate(s, a)).peers[g] == Peer(Next(s, a).nodes[g].local, Next(s, a).nodes[g].table)
  {
    hide Letters, Answers, Emitted, Act, Receive;
    if g == a.guid && !a.Join? {
      ActIgnoresQueues(s.nodes[g], a);
    }
  }

  lemma SamePeers(s: System, a: Action, w: World)
    requires Enabled(s, a) && Simulates(w, s) && Possible(w, Translate(s, a))
    ensures After(w, Translate(s, a)).peers.Keys == Next(s, a).nodes.Keys
    ensures forall g :: g in Next(s, a).nodes ==>
              After(w, Translate(s, a)).peers[g] == Peer(Next(s, a).nodes[g].local, Next(s, a).nodes[g].table)
  {
    hide After, Next, Possible, Translate, Simulates;
    SameNames(s, a, w);
    forall g | g in Next(s, a).nodes
      ensures After(w, Translate(s, a)).peers[g] == Peer(Next(s, a).nodes[g].local, Next(s, a).nodes[g].table)
    {
      SamePeer(s, a, w, g);
    }
  }

  lemma SentAreLetters(s: System, a: Action, w: World, g: Guid, m: Message)
    requires Enabled(s, a) && Simulates(w, s) && Possible(w, Translate(s, a))
    requires m in Sent(s, a, g)
    ensures Letter(g, m) in After(w, Translate(s, a)).letters
  {
    assert Letter(g, m) in Letters(g, Sent(s, a, g));
    var p := w.peers[g];
    assert !a.Deliver? ==> Emitted(Node(p.local, p.table, map[]), a) == Sent(s, a, g);
  }

  /** Every step over reliable queues is a step over the unreliable network. */
  lemma SimulationStep(s: System, a: Action, w: World)
    requires Enabled(s, a) && Simulates(w, s)
    requires forall g :: g in s.nodes ==> Pending(s.nodes[g], g) == []
    ensures Possible(w, Translate(s, a)) && Simulates(After(w, Translate(s, a)), Next(s, a))
  {
    var e, t := Translate(s, a), Next(s, a);
    assert Possible(w, e) by {
      assert a.Deliver? ==> Pending(s.nodes[a.guid], a.sender)[0] in Pending(s.nodes[a.guid], a.sender);
    }
    SamePeers(s, a, w);
    forall i, g, m | i in t.nodes && m in Pending(t.nodes[i], g)
      ensures Letter(g, m) in After(w, e).letters
    {
      InFlightStep(s, a, i, g, m);
      if m in Sent(s, a, g) {
        SentAreLetters(s, a, w, g, m);
      }
    }
  }

  /** So what holds of every unreliable history holds of every reliable run. */
  lemma {:induction false} Simulation(s: System, actions: seq<Action>, t: System, w: World)
    returns (events: seq<Event>, v: World)
    requires Inv(s) && Run(s, actions, t) && Simulates(w, s)
    ensures History(w, events, v) && Simulates(v, t)
    decreases |actions|
  {
    if actions == [] {
      return [], w;
    }
    SimulationStep(s, actions[0], w);
    InvStep(s, actions[0]);
    var e := Translate(s, actions[0]);
    var rest, u := Simulation(Next(s, actions[0]), actions[1..], t, After(w, e));
    assert ([e] + rest)[1..] == rest;
    return [e] + rest, u;
  }
}
