/**
 Topics, and the flat relation (name, guid) -> topic that a directory stands for.

 A directory keeps two nested C++ maps.  What they mean is one flat relation from
 (topic name, announcing guid) to the announced topic, changed by three simple operations.
 The store class is proved against these operations and the discovery protocol is stated
 over them.
 */
module Topics {

  type Guid = string
  type Name = string

  /** What a node announces about a topic. */
  datatype Offer = Offer(socketType: int, address: string, inputTypes: set<string>, outputTypes: set<string>)

  /** A topic as a directory stores it.  The source's `info` text is a function of name and offer. */
  datatype Topic = Topic(name: Name, timestamp: int, offer: Offer, guid: Guid)

  datatype Key = Key(name: Name, guid: Guid)

  type Table = map<Key, Topic>

  /** An announcement replaces an entry only when the entry is missing or has another address. */
  function Put(table: Table, topic: Topic): Table
  {
    var key := Key(topic.name, topic.guid);
    if key in table && table[key].offer.address == topic.offer.address then table else table[key := topic]
  }

  function Drop(table: Table, guid: Guid, name: Name): Table
  {
    table - {Key(name, guid)}
  }

  function Evict(table: Table, guid: Guid): Table
  {
    map key | key in table && key.guid != guid :: table[key]
  }

  /** Every entry sits under its own name and guid. */
  ghost predicate WellKeyed(table: Table)
  {
    forall key :: key in table ==> table[key].name == key.name && table[key].guid == key.guid
  }

  /** The part of a table that one guid announced, by name. */
  ghost function View(table: Table, guid: Guid): map<Name, Offer>
  {
    map key | key in table && key.guid == guid :: key.name := table[key].offer
  }

  ghost function Offers(local: map<Name, Topic>): map<Name, Offer>
  {
    map name | name in local :: local[name].offer
  }

  lemma InView(table: Table, guid: Guid, name: Name)
    ensures name in View(table, guid) <==> Key(name, guid) in table
    ensures Key(name, guid) in table ==> View(table, guid)[name] == table[Key(name, guid)].offer
  {
    assert Key(name, guid) in table ==> name in View(table, guid);
  }

  lemma PutView(table: Table, topic: Topic, guid: Guid)
    ensures View(Put(table, topic), guid) ==
            var view := View(table, guid);
            if guid != topic.guid || (topic.name in view && view[topic.name].address == topic.offer.address) then view
            else view[topic.name := topic.offer]
  {
    InView(table, guid, topic.name);
    InView(Put(table, topic), guid, topic.name);
  }

  lemma DropView(table: Table, sender: Guid, name: Name, guid: Guid)
    ensures View(Drop(table, sender, name), guid)
         == if guid == sender then View(table, guid) - {name} else View(table, guid)
  {
    forall n
      ensures n in View(Drop(table, sender, name), guid) <==> n in View(table, guid) && (guid != sender || n != name)
    {
      InView(table, guid, n);
      InView(Drop(table, sender, name), guid, n);
    }
  }

  lemma EvictView(table: Table, sender: Guid, guid: Guid)
    ensures View(Evict(table, sender), guid) == if guid == sender then map[] else View(table, guid)
  {
  }

  lemma OffersUpdate(local: map<Name, Topic>, topic: Topic)
    ensures Offers(local[topic.name := topic]) == Offers(local)[topic.name := topic.offer]
    ensures Offers(local - {topic.name}) == Offers(local) - {topic.name}
  {
  }

  // ---------------------------------------------------------------- a directory's own topics

  /** Local topics and the entries under the directory's own guid are the same topics. */
  ghost predicate Own(guid: Guid, local: map<Name, Topic>, table: Table)
  {
    forall name :: (name in local <==> Key(name, guid) in table)
                && (name in local ==> local[name] == table[Key(name, guid)])
  }

  lemma OwnPut(guid: Guid, local: map<Name, Topic>, table: Table, topic: Topic)
    requires Own(guid, local, table) && (topic.guid == guid ==> topic.name !in local)
    ensures Own(guid, if topic.guid == guid then local[topic.name := topic] else local, Put(table, topic))
  {
  }

  lemma OwnDrop(guid: Guid, local: map<Name, Topic>, table: Table, sender: Guid, name: Name)
    requires Own(guid, local, table)
    ensures Own(guid, if sender == guid then local - {name} else local, Drop(table, sender, name))
  {
  }

  lemma OwnEvict(guid: Guid, local: map<Name, Topic>, table: Table, sender: Guid)
    requires Own(guid, local, table) && sender != guid
    ensures Own(guid, local, Evict(table, sender))
  {
  }
}
