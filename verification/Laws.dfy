/**
 What the protocol's steps amount to, said without the functions that compute them: what an arriving message
 leaves in a table, which answers a search gets and in what order, what reaches whose queue, and that a query
 leads to agreement.
 */
module Laws {
  import opened Topics
  import opened Discovery

  // ---------------------------------------------------------------- arriving messages

  /**
   `after` is `before` with a message heeded: a withdrawal takes one entry away and an exit all of its sender's;
   an announcement files the topic with the time of its arrival, unless it is there with the same address.
   */
  ghost predicate Heeded(before: Table, sender: Guid, message: Message, now: int, after: Table)
  {
    forall key ::
      && (key in after <==>
            match message
            case Available(name, _) => key in before || key == Key(name, sender)
            case Search(_) => key in before
            case Remove(name) => key in before && key != Key(name, sender)
            case Exit => key in before && key.guid != sender)
      && (key in after ==>
            if message.Available? && key == Key(message.name, sender)
               && !(key in before && before[key].offer.address == message.offer.address)
            then after[key] == Topic(message.name, now, message.offer, sender)
            else key in before && after[key] == before[key])
  }

  lemma ReceiveHeeds(table: Table, sender: Guid, message: Message, now: int)
    ensures Heeded(table, sender, message, now, Receive(table, sender, message, now))
  {
  }

  // ---------------------------------------------------------------- answers to a search

  /** The names a search asks for, one after the other; the wildcard stands for all in `order`. */
  function Asked(names: seq<Name>, order: seq<Name>): seq<Name>
  {
    if names == [] then [] else (if names[0] == WILDCARD then order else [names[0]]) + Asked(names[1..], order)
  }

  function Kept(local: map<Name, Topic>, names: seq<Name>): seq<Name>
  {
    if names == [] then [] else (if names[0] in local then [names[0]] else []) + Kept(local, names[1..])
  }

  ghost predicate Announced(local: map<Name, Topic>, kept: seq<Name>, sent: seq<Message>)
  {
    |sent| == |kept| && forall k :: 0 <= k < |sent| ==>
      kept[k] in local && sent[k] == Available(kept[k], local[kept[k]].offer)
  }

  /** One announcement for each name asked for that is local, in the order asked for, and no other message. */
  ghost predicate Answered(local: map<Name, Topic>, names: seq<Name>, order: seq<Name>, sent: seq<Message>)
  {
    Announced(local, Kept(local, Asked(names, order)), sent)
  }

  lemma AnnouncedConcat(local: map<Name, Topic>, a: seq<Name>, b: seq<Name>, x: seq<Message>, y: seq<Message>)
    requires Announced(local, a, x) && Announced(local, b, y)
    ensures Announced(local, a + b, x + y)
  {
  }

  lemma {:induction false} AnnounceKept(local: map<Name, Topic>, names: seq<Name>)
    ensures Announced(local, Kept(local, names), Announce(local, names))
  {
    if names != [] {
      AnnounceKept(local, names[1..]);
    }
  }

  lemma {:induction false} KeptConcat(local: map<Name, Topic>, a: seq<Name>, b: seq<Name>)
    ensures Kept(local, a + b) == Kept(local, a) + Kept(local, b)
  {
    if a == [] {
      assert a + b == b;
    } else {
      assert (a + b)[1..] == a[1..] + b;
      KeptConcat(local, a[1..], b);
    }
  }

  lemma {:induction false} RepliesAnswer(local: map<Name, Topic>, names: seq<Name>, order: seq<Name>)
    ensures Answered(local, names, order, Replies(local, names, order))
  {
    hide Announce, Kept, Announced;
    if names == [] {
      NothingKept(local);
    } else {
      var first, rest := if names[0] == WILDCARD then order else [names[0]], Asked(names[1..], order);
      RepliesAnswer(local, names[1..], order);
      AnnounceKept(local, first);
      KeptConcat(local, first, rest);
      AnnouncedConcat(local, Kept(local, first), Kept(local, rest),
                      Announce(local, first), Replies(local, names[1..], order));
    }
  }

  lemma NothingKept(local: map<Name, Topic>)
    ensures Kept(local, []) == [] && Announced(local, [], [])
  {
  }

  lemma {:induction false} InKept(local: map<Name, Topic>, names: seq<Name>, name: Name)
    ensures name in Kept(local, names) <==> name in names && name in local
  {
    if names != [] {
      InKept(local, names[1..], name);
      assert names == [names[0]] + names[1..];
    }
  }

  lemma {:induction false} InAsked(names: seq<Name>, order: seq<Name>, name: Name)
    ensures name in Asked(names, order) <==>
            (name in names && name != WILDCARD) || (WILDCARD in names && name in order)
  {
    if names != [] {
      InAsked(names[1..], order, name);
      assert names == [names[0]] + names[1..];
    }
  }

  /** Is among the answers to a search for `names`. */
  predicate IsAnswer(local: map<Name, Topic>, names: seq<Name>, message: Message)
  {
    && message.Available? && message.name in local && message.offer == local[message.name].offer
    && (message.name in names || WILDCARD in names)
  }

  /** A search gets exactly the answers it asked for. */
  lemma AnsweredExactly(local: map<Name, Topic>, names: seq<Name>, order: seq<Name>, sent: seq<Message>, m: Message)
    requires Answered(local, names, order, sent) && forall name :: name in local ==> name in order
    ensures m in sent <==> IsAnswer(local, names, m)
  {
    var asked := Kept(local, Asked(names, order));
    if m in sent {
      var k :| 0 <= k < |sent| && sent[k] == m;
      assert asked[k] in asked;
      InKept(local, Asked(names, order), asked[k]);
      InAsked(names, order, asked[k]);
    }
    if IsAnswer(local, names, m) {
      InAsked(names, order, m.name);
      InKept(local, Asked(names, order), m.name);
      var k :| 0 <= k < |asked| && asked[k] == m.name;
      assert sent[k] == m;
    }
  }

  lemma RepliesExactly(local: map<Name, Topic>, names: seq<Name>, order: seq<Name>, m: Message)
    requires forall name :: name in local ==> name in order
    ensures m in Replies(local, names, order) <==> IsAnswer(local, names, m)
  {
    RepliesAnswer(local, names, order);
    AnsweredExactly(local, names, order, Replies(local, names, order), m);
  }

  // ---------------------------------------------------------------- queues

  /** A step takes at most the first message from one queue, and adds what was sent to all queues but the sender's. */
  lemma QueueStep(s: System, a: Action, i: Guid, g: Guid)
    requires Enabled(s, a) && i in s.nodes && i in Next(s, a).nodes && i != g
    ensures Pending(Next(s, a).nodes[i], g)
         == (if a.Deliver? && a.guid == i && a.sender == g then Pending(s.nodes[i], g)[1..] else Pending(s.nodes[i], g))
            + Sent(s, a, g)
  {
    hide Emitted, Receive;
  }

  /** What each action of a directory puts in the queue of every other live directory. */
  lemma ActionIsQueued(s: System, a: Action, i: Guid)
    requires Enabled(s, a) && !a.Join? && !a.Deliver? && i in s.nodes && i != a.guid
    ensures i in Next(s, a).nodes
    ensures Pending(Next(s, a).nodes[i], a.guid) == Pending(s.nodes[i], a.guid) +
            match a
            case Register(_, name, _, offer) => [Available(name, offer)]
            case Withdraw(_, name) => if name in s.nodes[a.guid].local then [Remove(name)] else []
            case Query(_, names) => [Search(names)]
            case _ => [Exit]
  {
    assert i in Next(s, a).nodes;
    QueueStep(s, a, i, a.guid);
  }

  // ---------------------------------------------------------------- from a query to agreement

  /** How many messages from i directory g has handled. */
  function Deliveries(actions: seq<Action>, g: Guid, i: Guid): nat
  {
    if actions == [] then 0
    else (if actions[0].Deliver? && actions[0].guid == g && actions[0].sender == i then 1 else 0)
         + Deliveries(actions[1..], g, i)
  }

  lemma StillLive(s: System, a: Action, actions: seq<Action>, t: System, g: Guid)
    requires Inv(s) && Enabled(s, a) && Run(Next(s, a), actions, t) && g in s.nodes && g in t.nodes
    ensures g in Next(s, a).nodes
  {
    InvStep(s, a);
    if g !in Next(s, a).nodes {
      GoneForever(Next(s, a), actions, t, g);
      assert false;
    }
  }

  ghost predicate Agree(s: System, r: Guid, g: Guid, names: seq<Name>)
    requires r in s.nodes
  {
    (forall name :: name in names ==> ExactAt(s, r, g, name)) && (WILDCARD in names ==> Exact(s, r, g))
  }

  lemma AgreeStable(s: System, actions: seq<Action>, t: System, r: Guid, g: Guid, names: seq<Name>)
    requires Inv(s) && Run(s, actions, t) && r in s.nodes && r in t.nodes && r != g && Agree(s, r, g, names)
    ensures Agree(t, r, g, names)
  {
    hide Exact, ExactAt, Run, Inv;
    forall name | name in names
      ensures ExactAt(t, r, g, name)
    {
      AgreementIsStable(s, actions, t, r, g, name);
    }
    AgreementIsStable(s, actions, t, r, g, "");
  }

  /** A search in a queue is answered once everything before it and itself has been handled. */
  lemma {:induction false} SearchIsHandled(
    s: System, actions: seq<Action>, t: System, g: Guid, i: Guid, k: nat, names: seq<Name>, r: Guid)
    requires Inv(s) && Run(s, actions, t) && g in s.nodes && g in t.nodes && i != g
    requires k < |Pending(s.nodes[g], i)| && Pending(s.nodes[g], i)[k] == Search(names)
    requires Deliveries(actions, g, i) > k && r in s.nodes && r in t.nodes && r != g
    ensures Agree(t, r, g, names)
    decreases |actions|
  {
    hide Next, Inv, Exact, ExactAt;
    var a, u := actions[0], Next(s, actions[0]);
    StillLive(s, a, actions[1..], t, g);
    StillLive(s, a, actions[1..], t, r);
    InvStep(s, a);
    QueueStep(s, a, g, i);
    if a.Deliver? && a.guid == g && a.sender == i {
      if k == 0 {
        InvWithin(s, r, g);
        SearchSynchronises(s, a, r);
        AgreeStable(u, actions[1..], t, r, g, names);
      } else {
        SearchIsHandled(u, actions[1..], t, g, i, k - 1, names, r);
      }
    } else {
      SearchIsHandled(u, actions[1..], t, g, i, k, names, r);
    }
  }

  lemma InvWithin(s: System, r: Guid, g: Guid)
    requires Inv(s) && r in s.nodes && r != g
    ensures Within(Prospect(s, r, g), Offered(s, g))
  {
  }

  /**
   A query leads to agreement: once g has handled what was in its queue from i and then i's search, every
   directory that was there all the time, i included, agrees with g about the names searched for.
   */
  lemma QueryLeadsToAgreement(before: seq<Action>, s: System, i: Guid, names: seq<Name>,
                              actions: seq<Action>, t: System, g: Guid, r: Guid)
    requires Run(INITIAL, before, s) && Enabled(s, Query(i, names)) && Run(Next(s, Query(i, names)), actions, t)
    requires g in s.nodes && g in t.nodes && g != i && r in s.nodes && r in t.nodes && r != g
    requires Deliveries(actions, g, i) > |Pending(s.nodes[g], i)|
    ensures Agree(t, r, g, names)
  {
    hide Run, Deliveries, Inv, Agree;
    var a, u := Query(i, names), Next(s, Query(i, names));
    Reachable(before, s);
    InvStep(s, a);
    StillLive(s, a, actions, t, r);
    ActionIsQueued(s, a, g);
    SearchIsHandled(u, actions, t, g, i, |Pending(s.nodes[g], i)|, names, r);
  }
}
