/**
 The directory's topic store and the clients that observe it.

 The store keeps nested maps name -> guid -> topic and calls its observers on every change.  Its
 methods are proved against the flat relation of module Topics, and every method keeps the clients'
 connections equal to the addresses stored for their topics.
 */
module TopicStore {
  import opened Topics

  type GuidTopicMap = map<Guid, Topic>

  type Network = map<Name, GuidTopicMap>

  // ---------------------------------------------------------------- what the nested maps mean

  ghost function Keys(network: Network): set<Key>
  {
    set name, guid | name in network && guid in network[name] :: Key(name, guid)
  }

  lemma InKeys(network: Network, key: Key)
    ensures key in Keys(network) <==> key.name in network && key.guid in network[key.name]
  {
    assert key == Key(key.name, key.guid);
  }

  ghost function Flat(network: Network): Table
  {
    map key | key in Keys(network) :: network[key.name][key.guid]
  }

  ghost predicate NoEmptyMap(network: Network)
  {
    forall name :: name in network ==> network[name] != map[]
  }

  lemma FlatDetermines(a: Network, b: Network, name: Name)
    requires NoEmptyMap(a) && Flat(a) == Flat(b) && name in a
    ensures name in b && a[name] == b[name]
  {
    forall guid
      ensures guid in a[name] <==> name in b && guid in b[name]
      ensures guid in a[name] ==> a[name][guid] == b[name][guid]
    {
      InKeys(a, Key(name, guid));
      InKeys(b, Key(name, guid));
      assert Key(name, guid) in Flat(a) <==> Key(name, guid) in Flat(b);
      assert Key(name, guid) in Flat(a) ==> Flat(a)[Key(name, guid)] == Flat(b)[Key(name, guid)];
    }
    var guid :| guid in a[name];
    assert a[name].Keys == b[name].Keys;
  }

  /** Without empty inner maps the nested maps are determined by the flat relation. */
  lemma FlatIsFaithful(a: Network, b: Network)
    requires NoEmptyMap(a) && NoEmptyMap(b) && Flat(a) == Flat(b)
    ensures a == b
  {
    forall name | name in a ensures name in b && a[name] == b[name] {
      FlatDetermines(a, b, name);
    }
    forall name | name in b ensures name in a {
      FlatDetermines(b, a, name);
    }
    assert a.Keys == b.Keys;
  }

  /** Replacing the inner map of one name, where an empty inner map is not kept. */
  ghost function Replace(network: Network, name: Name, inner: GuidTopicMap): Network
  {
    if inner == map[] then network - {name} else network[name := inner]
  }

  function Inner(network: Network, name: Name): GuidTopicMap
  {
    if name in network then network[name] else map[]
  }

  lemma FlatPut(network: Network, topic: Topic)
    ensures Flat(Replace(network, topic.name, Inner(network, topic.name)[topic.guid := topic]))
         == Flat(network)[Key(topic.name, topic.guid) := topic]
  {
    var inner := Inner(network, topic.name)[topic.guid := topic];
    assert topic.guid in inner;
    var after := Replace(network, topic.name, inner);
    forall key ensures key in Flat(after) <==> key in Flat(network)[Key(topic.name, topic.guid) := topic] {
      InKeys(network, key);
      InKeys(after, key);
      assert key.name != topic.name ==> Inner(after, key.name) == Inner(network, key.name);
    }
  }

  lemma FlatDrop(network: Network, guid: Guid, name: Name)
    ensures Flat(Replace(network, name, Inner(network, name) - {guid})) == Drop(Flat(network), guid, name)
  {
    var inner := Inner(network, name) - {guid};
    var after := Replace(network, name, inner);
    assert Inner(after, name) == inner;
    forall key ensures key in Flat(after) <==> key in Drop(Flat(network), guid, name) {
      InKeys(network, key);
      InKeys(after, key);
      assert key.guid in Inner(after, key.name) <==> key in Flat(after);
      assert key.guid in Inner(network, key.name) <==> key in Flat(network);
    }
  }

  lemma ReplacePut(network: Network, topic: Topic)
    requires NoEmptyMap(network) && WellKeyed(Flat(network))
    ensures var after := Replace(network, topic.name, Inner(network, topic.name)[topic.guid := topic]);
            && NoEmptyMap(after) && WellKeyed(Flat(after))
            && Flat(after) == Flat(network)[Key(topic.name, topic.guid) := topic]
  {
    hide Flat;
    FlatPut(network, topic);
  }

  /** The nested maps with a topic filed, unless it is there with the same address. */
  ghost function Filed(network: Network, topic: Topic): Network
  {
    var inner := Inner(network, topic.name);
    if topic.guid in inner && inner[topic.guid].offer.address == topic.offer.address then network
    else Replace(network, topic.name, inner[topic.guid := topic])
  }

  lemma FiledIsPut(network: Network, topic: Topic)
    requires NoEmptyMap(network) && WellKeyed(Flat(network))
    ensures NoEmptyMap(Filed(network, topic)) && WellKeyed(Flat(Filed(network, topic)))
    ensures Flat(Filed(network, topic)) == Put(Flat(network), topic)
  {
    hide NoEmptyMap, WellKeyed, Replace;
    InKeys(network, Key(topic.name, topic.guid));
    ReplacePut(network, topic);
  }

  lemma ReplaceDrop(network: Network, guid: Guid, name: Name)
    requires NoEmptyMap(network) && WellKeyed(Flat(network))
    ensures var after := Replace(network, name, Inner(network, name) - {guid});
            NoEmptyMap(after) && WellKeyed(Flat(after)) && Flat(after) == Drop(Flat(network), guid, name)
  {
    FlatDrop(network, guid, name);
  }

  /** Every inner map without `guid`. */
  ghost predicate Evicted(before: Network, guid: Guid, after: Network)
  {
    forall name ::
      && (name in after <==> name in before && before[name] - {guid} != map[])
      && (name in after ==> after[name] == before[name] - {guid})
  }

  lemma FlatEvict(before: Network, guid: Guid, after: Network)
    requires Evicted(before, guid, after)
    ensures Flat(after) == Evict(Flat(before), guid)
  {
    forall key ensures key in Flat(after) <==> key in Evict(Flat(before), guid) {
      InKeys(before, key);
      InKeys(after, key);
      if key in Evict(Flat(before), guid) {
        assert key.guid in before[key.name] - {guid};
      }
    }
  }

  lemma EvictedEverywhere(before: Network, guid: Guid, after: Network)
    requires NoEmptyMap(before) && NoEmptyMap(after) && WellKeyed(Flat(before))
    requires forall name :: Inner(after, name) == Inner(before, name) - {guid}
    ensures Flat(after) == Evict(Flat(before), guid) && WellKeyed(Flat(after))
  {
    forall name
      ensures name in after <==> name in before && before[name] - {guid} != map[]
      ensures name in after ==> after[name] == before[name] - {guid}
    {
      assert Inner(after, name) == Inner(before, name) - {guid};
    }
    FlatEvict(before, guid, after);
  }

  // ---------------------------------------------------------------- clients

  ghost function Addresses(inner: GuidTopicMap): set<string>
  {
    set guid | guid in inner :: inner[guid].offer.address
  }

  class Client {
    const topicName: Name
    var addresses: set<string>
    /** The connections of the underlying socket, with multiplicity. */
    var connections: multiset<string>
    /** Whether the client has been told about its topic, or started when there was nothing to tell. */
    ghost var informed: bool

    ghost predicate Valid()
      reads this
    {
      connections == multiset(addresses)
    }

    constructor (topicName: Name)
      ensures Valid() && addresses == {} && this.topicName == topicName && !informed
    {
      this.topicName := topicName;
      addresses, connections := {}, multiset{};
      informed := false;
    }

    method Connect(address: string)
      requires Valid()
      modifies this`addresses, this`connections
      ensures Valid() && addresses == old(addresses) + {address}
    {
      if address !in addresses {
        addresses := addresses + {address};
        connections := connections + multiset{address};
      }
    }

    method Disconnect(address: string)
      requires Valid()
      modifies this`addresses, this`connections
      ensures Valid() && addresses == old(addresses) - {address}
    {
      if address in addresses {
        addresses := addresses - {address};
        connections := connections - multiset{address};
      }
    }

    method ConnectAll(listed: set<string>)
      requires Valid()
      modifies this`addresses, this`connections
      ensures Valid() && addresses == old(addresses) + listed
    {
      var waiting := listed;
      while waiting != {}
        invariant Valid() && waiting <= listed
        invariant addresses == old(addresses) + (listed - waiting)
      {
        var address :| address in waiting;
        if address !in addresses {
          Connect(address);
        }
        waiting := waiting - {address};
      }
    }

    /** Walks a snapshot of the connected addresses and drops those that are not listed. */
    method DisconnectUnlisted(listed: set<string>)
      requires Valid()
      modifies this`addresses, this`connections
      ensures Valid() && addresses == old(addresses) * listed
    {
      var snapshot := addresses;
      while snapshot != {}
        invariant Valid() && snapshot <= old(addresses)
        invariant addresses == old(addresses) * listed + snapshot
      {
        var address :| address in snapshot;
        if address !in listed {
          Disconnect(address);
        }
        snapshot := snapshot - {address};
      }
    }

    /** The notification handler: connects what is new, then disconnects what is no longer listed. */
    method OnDirectoryTopicsChanged(inner: GuidTopicMap)
      requires Valid()
      modifies this
      ensures Valid() && informed && addresses == Addresses(inner)
    {
      var listed := ListAddresses(inner);
      ConnectAll(listed);
      DisconnectUnlisted(listed);
      informed := true;
    }
  }

  method ListAddresses(inner: GuidTopicMap) returns (listed: set<string>)
    ensures listed == Addresses(inner)
  {
    listed := {};
    var guids := inner.Keys;
    while guids != {}
      invariant guids <= inner.Keys
      invariant listed == set guid | guid in inner && guid !in guids :: inner[guid].offer.address
    {
      var guid :| guid in guids;
      guids := guids - {guid};
      listed := listed + {inner[guid].offer.address};
    }
  }

  // ---------------------------------------------------------------- the store

  datatype Observer = Observer(name: Name, client: Client, ref: nat)

  datatype AddResult = Added(mine: bool) | DuplicateTopic

  /** Observers of the empty name hear about every topic. */
  const EVERY_TOPIC: Name := ""

  /** The observers but those with a name and reference, in the same order. */
  function Without(observers: seq<Observer>, name: Name, ref: nat): seq<Observer>
  {
    if observers == [] then []
    else
      var last := observers[|observers| - 1];
      Without(observers[..|observers| - 1], name, ref) + if last.name == name && last.ref == ref then [] else [last]
  }

  method TakeOut(observers: seq<Observer>, name: Name, ref: nat) returns (kept: seq<Observer>)
    ensures kept == Without(observers, name, ref)
  {
    kept := [];
    for i := 0 to |observers|
      invariant kept == Without(observers[..i], name, ref)
    {
      assert observers[..i + 1][..i] == observers[..i];
      if !(observers[i].name == name && observers[i].ref == ref) {
        kept := kept + [observers[i]];
      }
    }
    assert observers[..|observers|] == observers;
  }

  /** Observers are taken out one by one, wherever they are, and the others keep their places. */
  lemma {:induction false} WithoutConcat(a: seq<Observer>, b: seq<Observer>, name: Name, ref: nat)
    ensures Without(a + b, name, ref) == Without(a, name, ref) + Without(b, name, ref)
    decreases |b|
  {
    if b == [] {
      assert a + b == a;
    } else {
      assert (a + b)[..|a + b| - 1] == a + b[..|b| - 1];
      WithoutConcat(a, b[..|b| - 1], name, ref);
    }
  }

  lemma {:induction false} WithoutKeeps(observers: seq<Observer>, name: Name, ref: nat)
    ensures forall o :: o in Without(observers, name, ref) <==> o in observers && !(o.name == name && o.ref == ref)
    ensures |Without(observers, name, ref)| <= |observers|
  {
    if observers != [] {
      WithoutKeeps(observers[..|observers| - 1], name, ref);
      assert observers == observers[..|observers| - 1] + [observers[|observers| - 1]];
    }
  }

  class Store {
    const myGuid: Guid
    var local: map<Name, Topic>
    var network: Network
    var observers: seq<Observer>

    ghost function Clients(): set<Client>
      reads this
    {
      set o | o in observers :: o.client
    }

    /** Every observer is a client of the topic it observes. */
    ghost predicate ClientsValid()
      reads this, Clients()
    {
      forall o :: o in observers ==> o.client.Valid() && o.client.topicName == o.name
    }

    /** An informed client is connected to exactly the addresses `net` has for its topic. */
    ghost predicate Mirrors(net: Network)
      reads this, Clients()
    {
      forall o :: o in observers && o.name != EVERY_TOPIC && o.client.informed ==>
        o.client.addresses == Addresses(Inner(net, o.name))
    }

    ghost predicate Valid()
      reads this, Clients()
    {
      NoEmptyMap(network) && WellKeyed(Flat(network)) && ClientsValid() && Mirrors(network)
    }

    /** Local topics and the entries under the store's own guid are the same topics. */
    ghost predicate OwnTopics()
      reads this
    {
      Own(myGuid, local, Flat(network))
    }

    constructor (myGuid: Guid)
      ensures Valid() && OwnTopics() && this.myGuid == myGuid
      ensures local == map[] && network == map[] && observers == []
    {
      this.myGuid := myGuid;
      local, network, observers := map[], map[], [];
    }

    method Handlers(name: Name) returns (handlers: seq<Client>)
      requires ClientsValid()
      ensures forall o :: o in observers && o.name == name ==> o.client in handlers
      ensures forall c :: c in handlers ==> c in Clients() && c.topicName == name
    {
      handlers := [];
      for i := 0 to |observers|
        invariant forall o :: o in observers[..i] && o.name == name ==> o.client in handlers
        invariant forall c :: c in handlers ==> c in Clients() && c.topicName == name
      {
        if observers[i].name == name {
          handlers := handlers + [observers[i].client];
        }
      }
      assert observers[..|observers|] == observers;
    }

    method CallAll(handlers: seq<Client>, inner: GuidTopicMap)
      requires ClientsValid() && forall c :: c in handlers ==> c in Clients()
      modifies Clients()
      ensures ClientsValid()
      ensures forall c :: c in handlers ==> c.informed && c.addresses == Addresses(inner)
      ensures forall c :: c in Clients() && c !in handlers ==>
                c.addresses == old(c.addresses) && c.informed == old(c.informed)
    {
      hide Addresses;
      for i := 0 to |handlers|
        invariant ClientsValid()
        invariant forall j :: 0 <= j < i ==> handlers[j].informed && handlers[j].addresses == Addresses(inner)
        invariant forall c :: c in Clients() && c !in handlers ==>
                    c.addresses == old(c.addresses) && c.informed == old(c.informed)
      {
        handlers[i].OnDirectoryTopicsChanged(inner);
      }
    }

    method CallObservers(name: Name, inner: GuidTopicMap)
      requires ClientsValid()
      modifies Clients()
      ensures ClientsValid()
      ensures forall o :: o in observers && (o.name == name || o.name == EVERY_TOPIC) ==>
                o.client.informed && o.client.addresses == Addresses(inner)
      ensures forall o :: o in observers && o.name != name && o.name != EVERY_TOPIC ==>
                o.client.addresses == old(o.client.addresses) && o.client.informed == old(o.client.informed)
    {
      var named := Handlers(name);
      var all := Handlers(EVERY_TOPIC);
      CallAll(named + all, inner);
    }

    /** Announces `inner` as the new inner map of `name` to its observers. */
    method Notify(name: Name, inner: GuidTopicMap, ghost before: Network)
      requires ClientsValid() && Mirrors(before)
      modifies Clients()
      ensures ClientsValid() && Mirrors(Replace(before, name, inner))
    {
      CallObservers(name, inner);
    }

    /** Files a topic under its name and guid, unless it is there with the same address. */
    method File(topic: Topic)
      requires ClientsValid() && Mirrors(network)
      modifies this`network, Clients()
      ensures ClientsValid() && Mirrors(network)
      ensures network == Filed(old(network), topic)
    {
      var before := network;
      if topic.name in network {
        var inner := network[topic.name];
        if topic.guid !in inner || inner[topic.guid].offer.address != topic.offer.address {
          inner := inner[topic.guid := topic];
          network := network[topic.name := inner];
          assert topic.guid in inner;
          Notify(topic.name, inner, before);
        }
      } else {
        var inner := map[topic.guid := topic];
        network := network[topic.name := inner];
        assert topic.guid in inner && inner == map[][topic.guid := topic];
        Notify(topic.name, inner, before);
      }
    }

    method Add(topic: Topic) returns (r: AddResult)
      requires Valid()
      modifies this`local, this`network, Clients()
      ensures Valid()
      ensures r == if topic.guid == myGuid && topic.name in old(local) then DuplicateTopic
                   else Added(topic.guid == myGuid)
      ensures r.DuplicateTopic? ==> local == old(local) && network == old(network)
      ensures r.DuplicateTopic? ==> forall c :: c in Clients() ==>
                c.addresses == old(c.addresses) && c.informed == old(c.informed)
      ensures r.Added? ==> local == if r.mine then old(local)[topic.name := topic] else old(local)
      ensures r.Added? ==> Flat(network) == Put(old(Flat(network)), topic)
      ensures old(OwnTopics()) ==> OwnTopics()
    {
      hide Own, Flat, Put, Filed, WellKeyed, NoEmptyMap;
      if OwnTopics() && (topic.guid == myGuid ==> topic.name !in local) {
        OwnPut(myGuid, local, Flat(network), topic);
      }
      if topic.guid == myGuid {
        if topic.name in local {
          return DuplicateTopic;
        }
        local := local[topic.name := topic];
      }
      FiledIsPut(network, topic);
      File(topic);
      r := Added(topic.guid == myGuid);
    }

    /** Takes the entry under a name and guid away, and the inner map with it when it was the last. */
    method Unfile(guid: Guid, name: Name)
      requires NoEmptyMap(network) && ClientsValid() && Mirrors(network)
      modifies this`network, Clients()
      ensures NoEmptyMap(network) && ClientsValid() && Mirrors(network)
      ensures network == Replace(old(network), name, Inner(old(network), name) - {guid})
    {
      if name in network {
        ghost var before := network;
        var inner := network[name];
        if guid in inner {
          inner := inner - {guid};
          network := network[name := inner];
          Notify(name, inner, before);
        } else {
          assert inner - {guid} == inner;
          assert network[name := inner] == network;
        }
        if inner == map[] {
          network := network - {name};
        }
        assert network == Replace(before, name, before[name] - {guid});
      } else {
        assert network - {name} == network;
      }
    }

    method Remove(guid: Guid, name: Name) returns (mine: bool)
      requires Valid()
      modifies this`local, this`network, Clients()
      ensures Valid()
      ensures mine == (guid == myGuid && name in old(local))
      ensures local == if guid == myGuid then old(local) - {name} else old(local)
      ensures Flat(network) == Drop(old(Flat(network)), guid, name)
      ensures old(OwnTopics()) ==> OwnTopics()
    {
      if OwnTopics() {
        OwnDrop(myGuid, local, Flat(network), guid, name);
      }
      mine := false;
      if guid == myGuid {
        mine := name in local;
        local := local - {name};
      }
      ReplaceDrop(network, guid, name);
      Unfile(guid, name);
    }

    method EvictNames(guid: Guid, all: set<Name>)
      requires NoEmptyMap(network) && ClientsValid() && Mirrors(network)
      modifies this`network, Clients()
      ensures NoEmptyMap(network) && ClientsValid() && Mirrors(network)
      ensures forall name :: Inner(network, name) == Inner(old(network), name) - if name in all then {guid} else {}
    {
      var names := all;
      while names != {}
        invariant names <= all
        invariant NoEmptyMap(network) && ClientsValid() && Mirrors(network)
        invariant forall name ::
                    Inner(network, name) == Inner(old(network), name) - if name in all - names then {guid} else {}
      {
        var name :| name in names;
        Unfile(guid, name);
        names := names - {name};
      }
    }

    /** Drops everything a directory announced, after it has said that it is leaving. */
    method EvictAll(guid: Guid)
      requires Valid()
      modifies this`network, Clients()
      ensures Valid() && Flat(network) == Evict(old(Flat(network)), guid)
      ensures old(OwnTopics()) && guid != myGuid ==> OwnTopics()
    {
      if OwnTopics() && guid != myGuid {
        OwnEvict(myGuid, local, Flat(network), guid);
      }
      EvictNames(guid, network.Keys);
      assert forall name :: Inner(network, name) == Inner(old(network), name) - {guid};
      EvictedEverywhere(old(network), guid, network);
    }

    /** Registers an observer; the source posts the first notification to the event loop. */
    method Observe(client: Client, ref: nat)
      requires Valid() && client.Valid() && client !in Clients()
      requires client.addresses == {} && !client.informed
      modifies this`observers, client`informed
      ensures Valid() && observers == old(observers) + [Observer(client.topicName, client, ref)]
      ensures client.informed == (client.topicName !in network)
    {
      hide Flat, WellKeyed, NoEmptyMap;
      client.informed := client.topicName !in network;
      observers := observers + [Observer(client.topicName, client, ref)];
      assert Clients() == old(Clients()) + {client};
    }

    /** The posted first notification; a client hears nothing while its topic is absent. */
    method CallImmediate(client: Client)
      requires Valid() && client in Clients()
      modifies client
      ensures Valid()
      ensures client.topicName in network ==>
                client.informed && client.addresses == Addresses(network[client.topicName])
      ensures client.topicName !in network ==>
                client.informed == old(client.informed) && client.addresses == old(client.addresses)
    {
      if client.topicName in network {
        client.OnDirectoryTopicsChanged(network[client.topicName]);
      }
    }

    method Unobserve(name: Name, ref: nat)
      requires Valid()
      modifies this`observers
      ensures Valid() && observers == Without(old(observers), name, ref)
    {
      hide Flat, WellKeyed, NoEmptyMap;
      var kept := TakeOut(observers, name, ref);
      WithoutKeeps(observers, name, ref);
      assert kept == Without(observers, name, ref);
      forall o | o in kept ensures o in observers {
        assert o in Without(observers, name, ref);
      }
      observers := kept;
    }

    /** The observed names nobody announces; these are searched for. */
    ghost function Missing(): set<Name>
      reads this
    {
      set o | o in observers && o.name !in network :: o.name
    }

    method GetMissing() returns (names: set<Name>)
      ensures names == Missing()
      ensures forall n :: n in names <==> n !in network && exists o :: o in observers && o.name == n
    {
      names := {};
      for i := 0 to |observers|
        invariant names == set o | o in observers[..i] && o.name !in network :: o.name
      {
        if observers[i].name !in network {
          names := names + {observers[i].name};
        }
      }
      assert observers[..|observers|] == observers;
    }
  }

  // ---------------------------------------------------------------- what a valid store means

  lemma InnerIsFlat(network: Network, name: Name, guid: Guid)
    ensures guid in Inner(network, name) <==> Key(name, guid) in Flat(network)
    ensures guid in Inner(network, name) ==> Inner(network, name)[guid] == Flat(network)[Key(name, guid)]
  {
    InKeys(network, Key(name, guid));
  }

  /** An informed client is connected to an address if and only if some directory's entry for its topic has it. */
  lemma ConnectionsMirror(store: Store, o: Observer, address: string)
    requires store.Valid() && o in store.observers && o.name != EVERY_TOPIC && o.client.informed
    ensures address in o.client.addresses <==>
            exists guid :: Key(o.name, guid) in Flat(store.network)
                        && Flat(store.network)[Key(o.name, guid)].offer.address == address
    ensures o.client.connections == multiset(o.client.addresses)
  {
    hide Flat;
    var inner := Inner(store.network, o.name);
    forall guid
      ensures guid in inner <==> Key(o.name, guid) in Flat(store.network)
      ensures guid in inner ==> inner[guid] == Flat(store.network)[Key(o.name, guid)]
    {
      InnerIsFlat(store.network, o.name, guid);
    }
    assert o.client.addresses == Addresses(inner);
  }

  /** A name is missing if and only if it is observed and no directory has an entry for it. */
  lemma MissingMeans(store: Store, name: Name)
    requires store.Valid()
    ensures name in store.Missing() <==>
            && (exists o :: o in store.observers && o.name == name)
            && forall guid :: Key(name, guid) !in Flat(store.network)
  {
    hide Flat;
    forall guid
      ensures guid in Inner(store.network, name) <==> Key(name, guid) in Flat(store.network)
    {
      InnerIsFlat(store.network, name, guid);
    }
    if name in store.network {
      var guid :| guid in store.network[name];
      assert guid in Inner(store.network, name);
    }
  }
}
