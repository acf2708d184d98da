/**
 The discovery protocol as a step system of many directories.

 Every directory has one first-in first-out inbox per sender.  A broadcast puts a message in the
 inbox of every other live directory.  A directory ignores its own datagrams, so none is put in its
 own inbox.  Theorems below speak of every run of every number of directories.
 */
module Discovery {
  import opened Topics

  datatype Message =
    | Available(name: Name, offer: Offer)
    | Search(names: seq<Name>)
    | Remove(name: Name)
    | Exit

  datatype Node = Node(local: map<Name, Topic>, table: Table, inbox: map<Guid, seq<Message>>)

  /** The live directories and the guids of those that have left; a guid is never used again. */
  datatype System = System(nodes: map<Guid, Node>, gone: set<Guid>)

  datatype Action =
    | Join(guid: Guid)
    | Register(guid: Guid, name: Name, now: int, offer: Offer)
    | Withdraw(guid: Guid, name: Name)
    | Query(guid: Guid, names: seq<Name>)
    | Leave(guid: Guid)
    | Deliver(guid: Guid, sender: Guid, now: int, order: seq<Name>)

  const WILDCARD: Name := "*"

  // ---------------------------------------------------------------- one directory

  /** What a message from another directory does to the receiver's table. */
  function Receive(table: Table, sender: Guid, message: Message, now: int): Table
  {
    match message
    case Available(name, offer) => Put(table, Topic(name, now, offer, sender))
    case Search(_) => table
    case Remove(name) => Drop(table, sender, name)
    case Exit => Evict(table, sender)
  }

  function Announce(local: map<Name, Topic>, names: seq<Name>): seq<Message>
  {
    if names == [] then []
    else if names[0] in local then [Available(names[0], local[names[0]].offer)] + Announce(local, names[1..])
    else Announce(local, names[1..])
  }

  /** The answers to a search; `order` is the order in which the local topics are iterated. */
  function Replies(local: map<Name, Topic>, names: seq<Name>, order: seq<Name>): seq<Message>
  {
    if names == [] then []
    else if names[0] == WILDCARD then Announce(local, order) + Replies(local, names[1..], order)
    else Announce(local, [names[0]]) + Replies(local, names[1..], order)
  }

  function Answers(local: map<Name, Topic>, message: Message, order: seq<Name>): seq<Message>
  {
    if message.Search? then Replies(local, message.names, order) else []
  }

  // ---------------------------------------------------------------- the step system

  function Pending(node: Node, sender: Guid): seq<Message>
  {
    if sender in node.inbox then node.inbox[sender] else []
  }

  function Enqueue(node: Node, sender: Guid, messages: seq<Message>): Node
  {
    node.(inbox := node.inbox[sender := Pending(node, sender) + messages])
  }

  function Broadcast(nodes: map<Guid, Node>, sender: Guid, messages: seq<Message>): map<Guid, Node>
  {
    map guid | guid in nodes :: if guid == sender then nodes[guid] else Enqueue(nodes[guid], sender, messages)
  }

  /** The duplicate registration that the store rejects with an exception is not a step. */
  ghost predicate Enabled(s: System, a: Action)
  {
    match a
    case Join(g) => g !in s.nodes && g !in s.gone
    case Register(g, name, _, _) => g in s.nodes && name !in s.nodes[g].local
    case Deliver(g, sender, _, order) =>
      && g in s.nodes && Pending(s.nodes[g], sender) != []
      && forall name :: name in order <==> name in s.nodes[g].local
    case _ => a.guid in s.nodes
  }

  /** The change of the acting directory's own state. */
  ghost function Act(node: Node, a: Action): Node
    requires a.Deliver? ==> Pending(node, a.sender) != []
  {
    match a
    case Register(g, name, now, offer) =>
      var topic := Topic(name, now, offer, g);
      node.(local := node.local[name := topic], table := Put(node.table, topic))
    case Withdraw(g, name) =>
      node.(local := node.local - {name}, table := Drop(node.table, g, name))
    case Deliver(_, sender, now, _) =>
      var queue := Pending(node, sender);
      node.(table := Receive(node.table, sender, queue[0], now), inbox := node.inbox[sender := queue[1..]])
    case _ => node
  }

  /** The messages the acting directory puts on the network. */
  ghost function Emitted(node: Node, a: Action): seq<Message>
    requires a.Deliver? ==> Pending(node, a.sender) != []
  {
    match a
    case Join(_) => []
    case Register(_, name, _, offer) => [Available(name, offer)]
    case Withdraw(_, name) => if name in node.local then [Remove(name)] else []
    case Query(_, names) => [Search(names)]
    case Leave(_) => [Exit]
    case Deliver(_, sender, _, order) => Answers(node.local, Pending(node, sender)[0], order)
  }

  ghost function Next(s: System, a: Action): System
    requires Enabled(s, a)
  {
    if a.Join? then
      s.(nodes := s.nodes[a.guid := Node(map[], map[], map[])])
    else
      var node := s.nodes[a.guid];
      var nodes := Broadcast(s.nodes[a.guid := Act(node, a)], a.guid, Emitted(node, a));
      if a.Leave? then System(nodes - {a.guid}, s.gone + {a.guid}) else s.(nodes := nodes)
  }

  ghost predicate Run(s: System, actions: seq<Action>, t: System)
    decreases |actions|
  {
    if actions == [] then s == t
    else Enabled(s, actions[0]) && Run(Next(s, actions[0]), actions[1..], t)
  }

  const INITIAL := System(map[], {})

  // ---------------------------------------------------------------- replaying what is in flight

  /** What a message from a directory means for the set of topics it offers. */
  ghost function Apply(view: map<Name, Offer>, message: Message): map<Name, Offer>
  {
    match message
    case Available(name, offer) =>
      if name in view && view[name].address == offer.address then view else view[name := offer]
    case Search(_) => view
    case Remove(name) => view - {name}
    case Exit => map[]
  }

  ghost function Replay(view: map<Name, Offer>, messages: seq<Message>): map<Name, Offer>
    decreases |messages|
  {
    if messages == [] then view else Replay(Apply(view, messages[0]), messages[1..])
  }

  /** What `receiver` will hold of `sender` once everything in flight between them has arrived. */
  ghost function Prospect(s: System, receiver: Guid, sender: Guid): map<Name, Offer>
    requires receiver in s.nodes
  {
    Replay(View(s.nodes[receiver].table, sender), Pending(s.nodes[receiver], sender))
  }

  /** What a directory offers now; one that has not joined or has left offers nothing. */
  ghost function Offered(s: System, guid: Guid): map<Name, Offer>
  {
    if guid in s.nodes then Offers(s.nodes[guid].local) else map[]
  }

  ghost predicate Within(small: map<Name, Offer>, large: map<Name, Offer>)
  {
    forall name :: name in small ==> name in large && small[name] == large[name]
  }

  ghost predicate Exact(s: System, receiver: Guid, sender: Guid)
    requires receiver in s.nodes
  {
    Prospect(s, receiver, sender) == Offered(s, sender)
  }

  ghost predicate ExactAt(s: System, receiver: Guid, sender: Guid, name: Name)
    requires receiver in s.nodes
  {
    name in Offered(s, sender) ==> name in Prospect(s, receiver, sender)
  }

  /** A directory's own entries are its local topics. */
  ghost predicate OwnEntries(guid: Guid, node: Node)
  {
    View(node.table, guid) == Offers(node.local)
  }

  ghost predicate Inv(s: System)
  {
    && (forall g :: g in s.nodes ==> OwnEntries(g, s.nodes[g]) && g !in s.gone && Pending(s.nodes[g], g) == [])
    && (forall i, g :: i in s.nodes && g != i ==> Within(Prospect(s, i, g), Offered(s, g)))
  }

  lemma {:induction false} ReplayAppend(view: map<Name, Offer>, a: seq<Message>, b: seq<Message>)
    ensures Replay(view, a + b) == Replay(Replay(view, a), b)
    decreases |a|
  {
    if a == [] {
      assert a + b == b;
    } else {
      assert (a + b)[1..] == a[1..] + b;
      ReplayAppend(Apply(view, a[0]), a[1..], b);
    }
  }

  /** Receiving a message changes the sender's entries as the message says and nobody else's. */
  lemma ReceiveView(table: Table, sender: Guid, message: Message, now: int, guid: Guid)
    ensures View(Receive(table, sender, message, now), guid)
         == if guid == sender then Apply(View(table, sender), message) else View(table, guid)
  {
    match message
    case Available(name, offer) => PutView(table, Topic(name, now, offer, sender), guid);
    case Search(_) =>
    case Remove(name) => DropView(table, sender, name, guid);
    case Exit => EvictView(table, sender, guid);
  }

  // ---------------------------------------------------------------- one step, seen from one pair

  /** The messages directory `guid` puts on the network in a step. */
  ghost function Sent(s: System, a: Action, guid: Guid): seq<Message>
    requires Enabled(s, a)
  {
    if a.guid == guid && !a.Join? then Emitted(s.nodes[guid], a) else []
  }

  /** Messages that never offer something other than what the view already has under that name. */
  ghost predicate Honest(view: map<Name, Offer>, messages: seq<Message>)
    decreases |messages|
  {
    messages == [] ||
    (&& (messages[0].Available? && messages[0].name in view ==> view[messages[0].name] == messages[0].offer)
     && Honest(Apply(view, messages[0]), messages[1..]))
  }

  /** Messages that repeat what is in a local topic map. */
  ghost predicate Echoes(local: map<Name, Topic>, messages: seq<Message>)
  {
    forall m :: m in messages ==> m.Available? && m.name in local && local[m.name].offer == m.offer
  }

  lemma {:induction false} AnnounceEchoes(local: map<Name, Topic>, names: seq<Name>)
    ensures Echoes(local, Announce(local, names))
    ensures forall name :: name in names && name in local ==>
              Available(name, local[name].offer) in Announce(local, names)
  {
    if names != [] {
      AnnounceEchoes(local, names[1..]);
      assert names == [names[0]] + names[1..];
    }
  }

  /** Answers repeat local topics, and cover every local topic that was asked for. */
  lemma {:induction false} RepliesEcho(local: map<Name, Topic>, names: seq<Name>, order: seq<Name>)
    requires forall name :: name in local ==> name in order
    ensures Echoes(local, Replies(local, names, order))
    ensures forall name :: name in local && (name in names || WILDCARD in names)
              ==> Available(name, local[name].offer) in Replies(local, names, order)
  {
    if names != [] {
      RepliesEcho(local, names[1..], order);
      AnnounceEchoes(local, order);
      AnnounceEchoes(local, [names[0]]);
      assert names == [names[0]] + names[1..];
      assert names[0] in [names[0]];
    }
  }

  lemma {:induction false} EchoesChangeNothing(local: map<Name, Topic>, messages: seq<Message>)
    requires Echoes(local, messages)
    ensures Replay(Offers(local), messages) == Offers(local)
    ensures Honest(Offers(local), messages)
    decreases |messages|
  {
    if messages != [] {
      assert messages[0] in messages;
      assert Echoes(local, messages[1..]);
      EchoesChangeNothing(local, messages[1..]);
    }
  }

  lemma ActOffers(node: Node, a: Action)
    requires a.Deliver? ==> Pending(node, a.sender) != [] && forall name :: name in node.local ==> name in a.order
    requires a.Register? ==> a.name !in node.local
    requires !a.Leave?
    ensures Offers(Act(node, a).local) == Replay(Offers(node.local), Emitted(node, a))
    ensures Honest(Offers(node.local), Emitted(node, a))
  {
    if a.Deliver? {
      var message := Pending(node, a.sender)[0];
      if message.Search? {
        RepliesEcho(node.local, message.names, a.order);
      }
      EchoesChangeNothing(node.local, Emitted(node, a));
    }
  }

  /** A directory's own step changes nothing it will come to hold of another directory. */
  lemma ActProspect(node: Node, a: Action, g: Guid)
    requires a.Deliver? ==> Pending(node, a.sender) != []
    requires g != a.guid
    ensures Replay(View(Act(node, a).table, g), Pending(Act(node, a), g))
         == Replay(View(node.table, g), Pending(node, g))
  {
    match a {
      case Deliver(_, h, now, _) => ReceiveView(node.table, h, Pending(node, h)[0], now, g);
      case Register(h, name, now, offer) => ReceiveView(node.table, h, Available(name, offer), now, g);
      case Withdraw(h, name) => ReceiveView(node.table, h, Remove(name), 0, g);
      case _ =>
    }
  }

  /** No step but its own registrations and withdrawals changes a directory's own entries. */
  lemma ActOwnEntries(node: Node, a: Action)
    requires a.Deliver? ==> Pending(node, a.sender) != []
    requires a.Register? ==> a.name !in node.local
    requires OwnEntries(a.guid, node) && Pending(node, a.guid) == []
    ensures OwnEntries(a.guid, Act(node, a)) && Pending(Act(node, a), a.guid) == []
  {
    match a {
      case Deliver(g, h, now, _) => ReceiveView(node.table, h, Pending(node, h)[0], now, g);
      case Register(g, name, now, offer) =>
        var topic := Topic(name, now, offer, g);
        PutView(node.table, topic, g);
        OffersUpdate(node.local, topic);
      case Withdraw(g, name) =>
        DropView(node.table, g, name, g);
        assert Offers(node.local - {name}) == Offers(node.local) - {name};
      case _ =>
    }
  }

  lemma NothingSent(view: map<Name, Offer>)
    ensures Replay(view, []) == view && Honest(view, [])
  {
  }

  lemma ExitSent(view: map<Name, Offer>)
    ensures Replay(view, [Exit]) == map[] && Honest(view, [Exit])
  {
  }

  lemma OfferedNext(s: System, a: Action, guid: Guid)
    requires Enabled(s, a)
    ensures Offered(Next(s, a), guid) ==
            if a.guid != guid then Offered(s, guid)
            else if a.Join? || a.Leave? then map[]
            else Offers(Act(s.nodes[guid], a).local)
  {
    hide Act, Emitted;
  }

  /** What a directory offers changes exactly as the messages it sends say. */
  lemma StepOffered(s: System, a: Action, guid: Guid)
    requires Enabled(s, a)
    ensures Offered(Next(s, a), guid) == Replay(Offered(s, guid), Sent(s, a, guid))
    ensures Honest(Offered(s, guid), Sent(s, a, guid))
  {
    hide Act, Honest;
    OfferedNext(s, a, guid);
    if a.guid != guid || a.Join? {
      NothingSent(Offered(s, guid));
    } else if a.Leave? {
      ExitSent(Offered(s, guid));
    } else {
      ActOffers(s.nodes[guid], a);
    }
  }

  /** What a receiver will come to hold of a sender changes exactly as the sender's messages say. */
  lemma StepProspect(s: System, a: Action, i: Guid, g: Guid)
    requires Enabled(s, a)
    requires i in s.nodes && i in Next(s, a).nodes && i != g
    ensures Prospect(Next(s, a), i, g) == Replay(Prospect(s, i, g), Sent(s, a, g))
  {
    var node := s.nodes[i];
    if i == a.guid {
      ActProspect(node, a, g);
    } else {
      ReplayAppend(View(node.table, g), Pending(node, g), Sent(s, a, g));
      assert Pending(node, g) + [] == Pending(node, g);
    }
  }

  // ---------------------------------------------------------------- every run

  /** Honest messages keep one view within another, and keep agreement about a name. */
  lemma {:induction false} ReplayWithin(
    small: map<Name, Offer>, large: map<Name, Offer>, messages: seq<Message>, name: Name)
    requires Within(small, large) && Honest(large, messages)
    ensures Within(Replay(small, messages), Replay(large, messages))
    ensures (name in large ==> name in small) ==> (name in Replay(large, messages) ==> name in Replay(small, messages))
    decreases |messages|
  {
    if messages != [] {
      ReplayWithin(Apply(small, messages[0]), Apply(large, messages[0]), messages[1..], name);
    }
  }

  lemma OwnEntriesStep(s: System, a: Action, g: Guid)
    requires Enabled(s, a) && g in Next(s, a).nodes
    requires g in s.nodes ==> OwnEntries(g, s.nodes[g]) && g !in s.gone && Pending(s.nodes[g], g) == []
    ensures OwnEntries(g, Next(s, a).nodes[g]) && g !in Next(s, a).gone && Pending(Next(s, a).nodes[g], g) == []
  {
    var node := Next(s, a).nodes[g];
    if g !in s.nodes {
      assert node == Node(map[], map[], map[]);
    } else if g == a.guid {
      ActOwnEntries(s.nodes[g], a);
      assert node == Act(s.nodes[g], a);
    } else {
      assert node.local == s.nodes[g].local && node.table == s.nodes[g].table;
      assert Pending(node, g) == Pending(s.nodes[g], g);
    }
  }

  lemma WithinStep(s: System, a: Action, i: Guid, g: Guid)
    requires Enabled(s, a) && i in Next(s, a).nodes && i != g
    requires i in s.nodes ==> Within(Prospect(s, i, g), Offered(s, g))
    ensures Within(Prospect(Next(s, a), i, g), Offered(Next(s, a), g))
  {
    if i in s.nodes {
      StepOffered(s, a, g);
      StepProspect(s, a, i, g);
      assert Within(Prospect(s, i, g), Offered(s, g));
      ReplayWithin(Prospect(s, i, g), Offered(s, g), Sent(s, a, g), "");
    } else {
      assert Prospect(Next(s, a), i, g) == map[];
    }
  }

  lemma InvStep(s: System, a: Action)
    requires Inv(s) && Enabled(s, a)
    ensures Inv(Next(s, a))
  {
    var t := Next(s, a);
    forall g | g in t.nodes
      ensures OwnEntries(g, t.nodes[g]) && g !in t.gone && Pending(t.nodes[g], g) == []
    {
      OwnEntriesStep(s, a, g);
    }
    forall i, g | i in t.nodes && g != i
      ensures Within(Prospect(t, i, g), Offered(t, g))
    {
      WithinStep(s, a, i, g);
    }
  }

  /**
   In every reachable state, replaying what is in flight from g to i over what i holds of g gives a
   part of what g offers now, whenever i joined; and a directory's own entries are its local topics.
   */
  lemma {:induction false} InvRun(s: System, actions: seq<Action>, t: System)
    requires Inv(s) && Run(s, actions, t)
    ensures Inv(t)
    decreases |actions|
  {
    if actions != [] {
      InvStep(s, actions[0]);
      InvRun(Next(s, actions[0]), actions[1..], t);
    }
  }

  lemma Reachable(actions: seq<Action>, s: System)
    requires Run(INITIAL, actions, s)
    ensures Inv(s)
  {
    InvRun(INITIAL, actions, s);
  }

  lemma {:induction false} GoneForever(s: System, actions: seq<Action>, t: System, guid: Guid)
    requires Inv(s) && Run(s, actions, t) && guid in s.gone
    ensures guid !in t.nodes
    decreases |actions|
  {
    if actions != [] {
      InvStep(s, actions[0]);
      GoneForever(Next(s, actions[0]), actions[1..], t, guid);
    }
  }

  /** Agreement between a receiver and a sender, on one name or on all of them, is never lost. */
  lemma {:induction false} AgreementIsStable(s: System, actions: seq<Action>, t: System, i: Guid, g: Guid, name: Name)
    requires Inv(s) && Run(s, actions, t)
    requires i in s.nodes && i in t.nodes && i != g
    ensures ExactAt(s, i, g, name) ==> ExactAt(t, i, g, name)
    ensures Exact(s, i, g) ==> Exact(t, i, g)
    decreases |actions|
  {
    if actions != [] {
      var a, u := actions[0], Next(s, actions[0]);
      InvStep(s, a);
      if i !in u.nodes {
        GoneForever(u, actions[1..], t, i);
        assert false;
      }
      StepOffered(s, a, g);
      StepProspect(s, a, i, g);
      ReplayWithin(Prospect(s, i, g), Offered(s, g), Sent(s, a, g), name);
      AgreementIsStable(u, actions[1..], t, i, g, name);
    }
  }

  /**
   A receiver that was there before g joined, or at any moment when g offered nothing, agrees with g
   exactly ever after: replaying what is in flight gives g's local topics.
   */
  lemma PresentFromTheStart(before: seq<Action>, s: System, after: seq<Action>, t: System, i: Guid, g: Guid)
    requires Run(INITIAL, before, s) && Run(s, after, t)
    requires i in s.nodes && i in t.nodes && i != g && Offered(s, g) == map[]
    ensures Exact(t, i, g)
  {
    Reachable(before, s);
    assert Within(Prospect(s, i, g), Offered(s, g));
    AgreementIsStable(s, after, t, i, g, "");
  }

  lemma {:induction false} AnnouncedIsHeld(view: map<Name, Offer>, messages: seq<Message>, name: Name)
    requires forall m :: m in messages ==> m.Available?
    requires name in view || exists m :: m in messages && m.name == name
    ensures name in Replay(view, messages)
    decreases |messages|
  {
    if messages != [] {
      assert messages == [messages[0]] + messages[1..];
      AnnouncedIsHeld(Apply(view, messages[0]), messages[1..], name);
    }
  }

  lemma AnsweredIsHeld(s: System, a: Action, i: Guid, name: Name)
    requires Enabled(s, a) && a.Deliver?
    requires Pending(s.nodes[a.guid], a.sender)[0].Search?
    requires i in s.nodes && i != a.guid
    requires name in s.nodes[a.guid].local
    requires var names := Pending(s.nodes[a.guid], a.sender)[0].names; name in names || WILDCARD in names
    ensures name in Prospect(Next(s, a), i, a.guid)
  {
    var local := s.nodes[a.guid].local;
    var sent := Sent(s, a, a.guid);
    RepliesEcho(local, Pending(s.nodes[a.guid], a.sender)[0].names, a.order);
    assert Available(name, local[name].offer) in sent;
    AnnouncedIsHeld(Prospect(s, i, a.guid), sent, name);
    StepProspect(s, a, i, a.guid);
  }

  lemma StillThere(s: System, a: Action, i: Guid)
    requires Enabled(s, a) && !a.Leave? && i in s.nodes
    ensures i in Next(s, a).nodes
  {
  }

  lemma OfferedUnchanged(s: System, a: Action)
    requires Enabled(s, a) && a.Deliver?
    ensures Offered(Next(s, a), a.guid) == Offers(s.nodes[a.guid].local)
  {
    assert Next(s, a).nodes[a.guid] == Act(s.nodes[a.guid], a);
  }

  /**
   Searching repairs a late joiner: once g has handled a search that names a topic, whoever asked,
   every live directory agrees with g about that topic, and after a wildcard search about all of them.
   */
  lemma SearchSynchronises(s: System, a: Action, i: Guid)
    requires Enabled(s, a) && a.Deliver?
    requires Pending(s.nodes[a.guid], a.sender)[0].Search?
    requires i in s.nodes && i != a.guid
    requires Within(Prospect(s, i, a.guid), Offered(s, a.guid))
    ensures forall name :: name in Pending(s.nodes[a.guid], a.sender)[0].names ==> ExactAt(Next(s, a), i, a.guid, name)
    ensures WILDCARD in Pending(s.nodes[a.guid], a.sender)[0].names ==> Exact(Next(s, a), i, a.guid)
  {
    hide Next, Prospect, Offered, Emitted, Act, Replay, View;
    StillThere(s, a, i);
    var prospect, offered := Prospect(Next(s, a), i, a.guid), Offered(Next(s, a), a.guid);
    var names := Pending(s.nodes[a.guid], a.sender)[0].names;
    OfferedUnchanged(s, a);
    WithinStep(s, a, i, a.guid);
    forall name | name in offered && (name in names || WILDCARD in names)
      ensures name in prospect
    {
      AnsweredIsHeld(s, a, i, name);
    }
    if WILDCARD in names {
      assert forall name :: name in offered ==> name in prospect;
    }
  }

  /**
   Nothing stale survives: when nothing is in flight from g to i, i holds only topics that g offers
   now, with g's present offer; none if g has left; and all of them if the two agree.
   */
  lemma QuiescentTables(actions: seq<Action>, s: System, i: Guid, g: Guid)
    requires Run(INITIAL, actions, s)
    requires i in s.nodes && i != g && Pending(s.nodes[i], g) == []
    ensures Within(View(s.nodes[i].table, g), Offered(s, g))
    ensures g !in s.nodes ==> forall key :: key in s.nodes[i].table ==> key.guid != g
    ensures Exact(s, i, g) <==> View(s.nodes[i].table, g) == Offered(s, g)
  {
    hide Run;
    Reachable(actions, s);
    NothingInFlight(s, i, g);
    hide Prospect, View, Replay;
    assert Within(Prospect(s, i, g), Offered(s, g));
    forall key | key in s.nodes[i].table && key.guid == g
      ensures key.name in View(s.nodes[i].table, g)
    {
      InView(s.nodes[i].table, g, key.name);
    }
  }

  lemma NothingInFlight(s: System, i: Guid, g: Guid)
    requires i in s.nodes && Pending(s.nodes[i], g) == []
    ensures Prospect(s, i, g) == View(s.nodes[i].table, g)
  {
  }
}
