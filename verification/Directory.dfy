/**
 One directory: its store, its receive buffer and what it broadcasts.  Its methods do what the
 corresponding protocol actions of module Discovery do.
 */
module Directory {
  import opened Topics
  import opened Discovery
  import opened Wire
  import opened Datagram
  import opened TopicStore
  import opened Messages
  import opened Laws
  import opened Querying = Query

  /** No datagram is taken to come from the directory that reads it. */
  lemma SenderIsAnother(me: Guid, onNetwork: string -> bool, line: string)
    ensures Decode(me, onNetwork, line).Heard? ==> Decode(me, onNetwork, line).sender != me
  {
  }

  lemma WithdrawEffect(node: Node, guid: Guid, name: Name)
    ensures Act(node, Action.Withdraw(guid, name))
         == Node(node.local - {name}, Drop(node.table, guid, name), node.inbox)
    ensures Emitted(node, Action.Withdraw(guid, name)) == if name in node.local then [Message.Remove(name)] else []
  {
  }

  lemma InSetOf(order: seq<Name>)
    ensures forall n :: n in order <==> n in SetOf(order)
  {
  }

  /** The names of a set in some order, each once. */
  method Enumerate(names: set<Name>) returns (order: seq<Name>)
    ensures SetOf(order) == names && |order| == |names|
  {
    order := [];
    var left := names;
    while left != {}
      invariant left <= names && SetOf(order) == names - left && |order| == |names| - |left|
    {
      var name :| name in left;
      assert SetOf(order + [name]) == SetOf(order) + {name};
      order := order + [name];
      left := left - {name};
    }
  }

  /** Writes the datagrams that search for a set of names. */
  method WriteSearches(guid: Guid, missing: set<Name>)
    returns (ok: bool, sent: seq<string>, ghost batches: seq<seq<Name>>)
    ensures |sent| == |Searches(batches)|
    ensures forall i :: 0 <= i < |sent| ==>
              LineOf(guid, Searches(batches)[i], sent[i]) && FitsBuffers(Searches(batches)[i], sent[i])
    ensures ok <==> forall n :: n in missing ==> NameFits(guid, n)
    ensures ok ==> SetOf(Flatten(batches)) == missing && |Flatten(batches)| == |missing|
  {
    hide *;
    var requests := Enumerate(missing);
    InSetOf(requests);
    ok, sent, batches := QueryMissing(guid, requests);
    PackedLines(guid, sent, batches);
  }

  lemma AnswerMeans(local: map<Name, Topic>, names: seq<Name>, order: seq<Name>, outbox: seq<Message>)
    ensures var sent := (outbox + Replies(local, names, order))[|outbox|..];
            && Answered(local, names, order, sent)
            && ((forall name :: name in local ==> name in order) ==>
                  forall m :: m in sent <==> IsAnswer(local, names, m))
  {
    hide Answered;
    var replies := Replies(local, names, order);
    assert (outbox + replies)[|outbox|..] == replies;
    RepliesAnswer(local, names, order);
    if forall name :: name in local ==> name in order {
      forall m ensures m in replies <==> IsAnswer(local, names, m) {
        RepliesExactly(local, names, order, m);
      }
    }
  }

  class Directory {
    const store: Store
    /** Everything broadcast so far, as messages of the protocol. */
    ghost var outbox: seq<Message>

    ghost predicate Valid()
      reads store, store.Clients()
    {
      store.Valid() && store.OwnTopics()
    }

    /** The directory's local topics and table, as the protocol sees them. */
    ghost function Abstraction(): Node
      reads store
    {
      Node(store.local, Flat(store.network), map[])
    }

    constructor (guid: Guid)
      ensures Valid() && fresh(store) && store.myGuid == guid
      ensures Abstraction() == Node(map[], map[], map[]) && outbox == []
    {
      store := new Store(guid);
      outbox := [];
      new;
      assert Flat(store.network) == map[];
    }

    method Broadcast(messages: seq<Message>)
      requires Valid()
      modifies this`outbox
      ensures Valid() && outbox == old(outbox) + messages
    {
      outbox := outbox + messages;
    }

    /** Registers a topic of this directory and announces it; a second one of the same name is refused. */
    method Register(name: Name, offer: Offer, now: int) returns (ok: bool)
      requires Valid()
      modifies this, store, store.Clients()
      ensures Valid()
      ensures ok <==> name !in old(store.local)
      ensures ok ==> var a := Action.Register(store.myGuid, name, now, offer);
                     && Abstraction() == Act(old(Abstraction()), a)
                     && outbox == old(outbox) + Emitted(old(Abstraction()), a)
      ensures ok ==> var topic := Topic(name, now, offer, store.myGuid);
                     && store.local == old(store.local)[name := topic]
                     && Flat(store.network) == old(Flat(store.network))[Key(name, store.myGuid) := topic]
                     && outbox == old(outbox) + [Available(name, offer)]
      ensures !ok ==> Abstraction() == old(Abstraction()) && outbox == old(outbox)
    {
      var r := store.Add(Topic(name, now, offer, store.myGuid));
      ok := r.Added?;
      if ok {
        Broadcast([Available(name, offer)]);
      }
    }

    method Withdraw(name: Name)
      requires Valid()
      modifies this, store, store.Clients()
      ensures Valid()
      ensures var a := Action.Withdraw(store.myGuid, name);
              Abstraction() == Act(old(Abstraction()), a) && outbox == old(outbox) + Emitted(old(Abstraction()), a)
      ensures store.local == old(store.local) - {name}
      ensures Flat(store.network) == old(Flat(store.network)) - {Key(name, store.myGuid)}
      ensures outbox == old(outbox) + if name in old(store.local) then [Message.Remove(name)] else []
    {
      WithdrawEffect(Abstraction(), store.myGuid, name);
      var mine := store.Remove(store.myGuid, name);
      if mine {
        Broadcast([Message.Remove(name)]);
      }
    }

    /** Says that the directory is leaving, which it does when it is destroyed. */
    method Leave()
      requires Valid()
      modifies this`outbox
      ensures Valid() && Abstraction() == old(Abstraction())
      ensures outbox == old(outbox) + [Exit] == old(outbox) + Emitted(Abstraction(), Action.Leave(store.myGuid))
    {
      Broadcast([Exit]);
    }

    /**
     Searches for the observed names nobody announces.  What is broadcast are the searches of the protocol, one
     for each datagram sent; if all names fit, every missing name is asked for once.
     */
    method AskForMissing() returns (ok: bool, sent: seq<string>, ghost batches: seq<seq<Name>>)
      requires Valid()
      modifies this`outbox
      ensures Valid() && Abstraction() == old(Abstraction())
      ensures outbox == old(outbox) + Searches(batches) && |sent| == |Searches(batches)|
      ensures forall i :: 0 <= i < |sent| ==>
                LineOf(store.myGuid, Searches(batches)[i], sent[i]) && FitsBuffers(Searches(batches)[i], sent[i])
      ensures ok <==> forall n :: n in store.Missing() ==> NameFits(store.myGuid, n)
      ensures ok ==> SetOf(Flatten(batches)) == store.Missing() && |Flatten(batches)| == |store.Missing()|
    {
      hide Flatten, Searches, LineOf, FitsBuffers, NameFits, SetOf, Flat, WellKeyed, NoEmptyMap, Own, Store.Missing;
      var missing := store.GetMissing();
      ok, sent, batches := WriteSearches(store.myGuid, missing);
      outbox := outbox + Searches(batches);
    }

    /** Announces the listed names that are local. */
    method AnnounceAll(names: seq<Name>)
      modifies this`outbox
      ensures outbox == old(outbox) + Announce(store.local, names)
    {
      for i := 0 to |names|
        invariant outbox + Announce(store.local, names[i..]) == old(outbox) + Announce(store.local, names)
      {
        assert names[i..][1..] == names[i + 1..];
        if names[i] in store.local {
          outbox := outbox + [Available(names[i], store.local[names[i]].offer)];
        }
      }
      assert names[|names|..] == [];
    }

    /** Answers a search; `order` is the iteration order of the local topics. */
    method Answer(names: seq<Name>, order: seq<Name>)
      modifies this`outbox
      ensures outbox == old(outbox) + Replies(store.local, names, order)
      ensures old(outbox) <= outbox && Answered(store.local, names, order, outbox[|old(outbox)|..])
      ensures (forall name :: name in store.local ==> name in order) ==>
                forall m :: m in outbox[|old(outbox)|..] <==> IsAnswer(store.local, names, m)
    {
      hide Answered, IsAnswer;
      AnswerMeans(store.local, names, order, outbox);
      for i := 0 to |names|
        invariant outbox + Replies(store.local, names[i..], order) == old(outbox) + Replies(store.local, names, order)
      {
        assert names[i..][1..] == names[i + 1..];
        if names[i] == WILDCARD {
          AnnounceAll(order);
        } else {
          AnnounceAll([names[i]]);
        }
      }
      assert names[|names|..] == [];
    }

    /** Acts on a message heard from another directory. */
    method Hear(sender: Guid, message: Message, now: int, order: seq<Name>)
      requires Valid() && sender != store.myGuid
      modifies this, store, store.Clients()
      ensures Valid() && store.local == old(store.local)
      ensures Flat(store.network) == Receive(old(Flat(store.network)), sender, message, now)
      ensures Heeded(old(Flat(store.network)), sender, message, now, Flat(store.network))
      ensures outbox == old(outbox) + Answers(old(store.local), message, order)
      ensures message.Search? ==> Answered(store.local, message.names, order, outbox[|old(outbox)|..])
      ensures !message.Search? ==> outbox == old(outbox)
    {
      hide Heeded, Answered, IsAnswer, Flat, WellKeyed, NoEmptyMap, Own, Put, Drop, Evict, Replies;
      ReceiveHeeds(Flat(store.network), sender, message, now);
      match message {
        case Available(name, offer) => var r := store.Add(Topic(name, now, offer, sender));
        case Search(names) => Answer(names, order);
        case Remove(name) => var mine := store.Remove(sender, name);
        case Exit => store.EvictAll(sender);
      }
    }

    /**
     Reads the datagram in the first `bytes` characters of the receive buffer and acts on it.  The effect is
     that of the protocol message it stands for, and a datagram that stands for none changes nothing.  So
     whatever another directory sends, if it is transmissible, has the effect the protocol gives it.
     */
    method Deliver(event: array<char>, bytes: nat, onNetwork: string -> bool, now: int, order: seq<Name>)
      requires Valid() && event.Length == EVENT_BUFFER_SIZE + 1 && bytes <= EVENT_BUFFER_SIZE
      modifies this, store, store.Clients(), event
      ensures Valid() && store.local == old(store.local)
      ensures match Decode(store.myGuid, onNetwork, old(event[..bytes]))
              case Ignored => Abstraction() == old(Abstraction()) && outbox == old(outbox)
              case Heard(sender, message) =>
                && sender != store.myGuid
                && Flat(store.network) == Receive(old(Flat(store.network)), sender, message, now)
                && Heeded(old(Flat(store.network)), sender, message, now, Flat(store.network))
                && outbox == old(outbox) + Answers(old(store.local), message, order)
                && (message.Search? ==> Answered(store.local, message.names, order, outbox[|old(outbox)|..]))
                && (!message.Search? ==> outbox == old(outbox))
      ensures forall guid, message ::
                LineOf(guid, message, old(event[..bytes])) && Plain(guid) && guid != store.myGuid
                && Transmissible(message, onNetwork) ==>
                  && Flat(store.network) == Receive(old(Flat(store.network)), guid, message, now)
                  && outbox == old(outbox) + Answers(old(store.local), message, order)
    {
      hide Decode, LineOf, Transmissible, Plain, Heeded, Answered;
      ghost var line := event[..bytes];
      SenderIsAnother(store.myGuid, onNetwork, line);
      forall guid, message | LineOf(guid, message, line) && Plain(guid) && guid != store.myGuid
                             && Transmissible(message, onNetwork)
        ensures Decode(store.myGuid, onNetwork, line) == Heard(guid, message)
      {
        LineIsUnderstood(store.myGuid, onNetwork, guid, message, line);
      }
      var decoded := HandleDatagram(event, bytes, store.myGuid, onNetwork);
      if decoded.Heard? {
        Hear(decoded.sender, decoded.message, now, order);
      }
    }
  }
}
