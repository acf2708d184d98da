/**
 Protocol messages as datagrams: which line a directory sends for a message, and exactly which messages
 every other directory hears as they were meant.
 */
module Messages {
  import opened Topics
  import opened Discovery
  import opened Wire
  import opened TypeList
  import opened Datagram
  import opened Query
  import opened Sequences

  /** `order` iterates a set of types. */
  ghost predicate Orders(order: seq<string>, types: set<string>)
  {
    SetOrder(order) && SetOf(order) == types
  }

  ghost predicate AnnouncementLine(
    guid: Guid, name: Name, offer: Offer, ins: seq<string>, outs: seq<string>, line: string)
  {
    && 0 <= offer.socketType < |SOCKET_TYPES| && Orders(ins, offer.inputTypes) && Orders(outs, offer.outputTypes)
    && line == Line(guid, DISCOVERY_AVAILABLE, TopicInfo(name, offer.socketType, offer.address, ins, outs))
  }

  /** A search is written with the names listed, among which there may be empty ones. */
  ghost predicate SearchLineFor(guid: Guid, names: seq<Name>, listed: seq<Name>, line: string)
  {
    listed != [] && WithoutEmpty(listed) == names && line == SearchLine(guid, listed)
  }

  /** `line` is what directory `guid` sends for a message. */
  ghost predicate LineOf(guid: Guid, message: Message, line: string)
  {
    match message
    case Available(name, offer) => exists ins, outs :: AnnouncementLine(guid, name, offer, ins, outs, line)
    case Search(names) => exists listed :: SearchLineFor(guid, names, listed, line)
    case Remove(name) => line == Line(guid, DISCOVERY_REMOVE, name)
    case Exit => line == Line(guid, DISCOVERY_EXIT, "")
  }

  predicate ReadableTypes(types: set<string>)
  {
    (forall t :: t in types ==> Word(t) && SEPARATOR !in t) && types != {NO_TYPES}
  }

  /** The messages whose fields arrive as they were meant. */
  predicate Transmissible(message: Message, onNetwork: string -> bool)
  {
    match message
    case Available(name, offer) =>
      && Word(name) && Word(offer.address) && onNetwork(offer.address)
      && ReadableTypes(offer.inputTypes) && ReadableTypes(offer.outputTypes)
    case Search(names) => forall n :: n in names ==> Word(n)
    case Remove(name) => Plain(name)
    case Exit => true
  }

  lemma ReadableOrder(order: seq<string>, types: set<string>)
    requires Orders(order, types)
    ensures Readable(order) <==> ReadableTypes(types)
  {
    assert forall t :: t in order <==> t in types;
    if types == {NO_TYPES} {
      SingletonOrder(order);
    } else {
      assert order == [NO_TYPES] ==> SetOf(order) == {NO_TYPES};
    }
  }

  lemma SingletonOrder(order: seq<string>)
    requires Orders(order, {NO_TYPES})
    ensures order == [NO_TYPES]
  {
    assert NO_TYPES in SetOf(order);
    var last := |order| - 1;
    assert order[0] in SetOf(order) && order[last] in SetOf(order);
    assert order[0] == order[last] == NO_TYPES;
  }

  lemma SearchMessage(me: Guid, onNetwork: string -> bool, guid: Guid, names: seq<Name>, listed: seq<Name>)
    requires listed != [] && WithoutEmpty(listed) == names
    ensures Decode(me, onNetwork, SearchLine(guid, listed)) == Heard(guid, Search(names))
       <==> Plain(guid) && guid != me && forall n :: n in names ==> Word(n)
  {
    hide Decode, Printable;
    SearchRoundTrip(me, onNetwork, guid, listed);
    forall n
      ensures n in names <==> n in listed && n != ""
    {
      InWithoutEmpty(listed, n);
    }
    EmptyIsPlain();
  }

  /** A line is read as the message it was written for exactly when guid and fields are in order. */
  lemma LineIsUnderstood(me: Guid, onNetwork: string -> bool, guid: Guid, message: Message, line: string)
    requires LineOf(guid, message, line) && (message.Exit? ==> |line| <= EVENT_BUFFER_SIZE)
    ensures Decode(me, onNetwork, line) == Heard(guid, message)
       <==> Plain(guid) && guid != me && Transmissible(message, onNetwork)
  {
    hide Decode, Word, Plain, Readable, ReadableTypes;
    match message
    case Available(name, offer) =>
      var ins, outs :| AnnouncementLine(guid, name, offer, ins, outs, line);
      AnnouncementIsRead(me, onNetwork, guid, name, offer.socketType, offer.address, ins, outs);
      ReadableOrder(ins, offer.inputTypes);
      ReadableOrder(outs, offer.outputTypes);
    case Search(names) =>
      var listed :| SearchLineFor(guid, names, listed, line);
      SearchMessage(me, onNetwork, guid, names, listed);
    case Remove(name) => RemoveIsRead(me, onNetwork, guid, name);
    case Exit => ExitIsRead(me, onNetwork, guid);
  }

  /** An exit is sent as it is, everything else through the send buffer. */
  function Carried(me: Guid, onNetwork: string -> bool, message: Message, line: string): Outcome
  {
    if message.Exit? then Arrived(Decode(me, onNetwork, Cut(line))) else Exchange(me, onNetwork, line)
  }

  predicate FitsBuffers(message: Message, line: string)
  {
    if message.Exit? then |line| <= EVENT_BUFFER_SIZE else |line| < EVENT_BUFFER_SIZE
  }

  /**
   A message arrives at directory `me` as it was meant, from the directory that sent it, if and only if its line
   fits the buffers, the sender's guid is plain and not `me`, and its fields are transmissible.
   */
  lemma MessageRoundTrip(me: Guid, onNetwork: string -> bool, guid: Guid, message: Message, line: string)
    requires LineOf(guid, message, line)
    ensures Carried(me, onNetwork, message, line) == Arrived(Heard(guid, message))
       <==> FitsBuffers(message, line) && Plain(guid) && guid != me && Transmissible(message, onNetwork)
  {
    hide Decode, Plain, Transmissible;
    if message.Exit? {
      ExitIsRead(me, onNetwork, guid);
      ExitIsTransmissible(onNetwork);
    } else {
      LineIsUnderstood(me, onNetwork, guid, message, line);
    }
  }

  lemma ExitIsTransmissible(onNetwork: string -> bool)
    ensures Transmissible(Exit, onNetwork)
  {
  }

  // ---------------------------------------------------------------- a query in several datagrams

  /** The searches that the datagrams of a query stand for. */
  function Searches(batches: seq<seq<Name>>): seq<Message>
  {
    if batches == [] then [] else [Search(WithoutEmpty(batches[0]))] + Searches(batches[1..])
  }

  /** What a directory answers to a series of messages, one after the other. */
  function AllAnswers(local: map<Name, Topic>, messages: seq<Message>, order: seq<Name>): seq<Message>
  {
    if messages == [] then [] else Answers(local, messages[0], order) + AllAnswers(local, messages[1..], order)
  }

  lemma {:induction false} RepliesConcat(local: map<Name, Topic>, a: seq<Name>, b: seq<Name>, order: seq<Name>)
    ensures Replies(local, a + b, order) == Replies(local, a, order) + Replies(local, b, order)
  {
    if a == [] {
      assert a + b == b;
    } else {
      hide Announce;
      assert (a + b)[1..] == a[1..] + b;
      RepliesConcat(local, a[1..], b, order);
      var first := if a[0] == WILDCARD then Announce(local, order) else Announce(local, [a[0]]);
      Assoc(first, Replies(local, a[1..], order), Replies(local, b, order));
    }
  }

  /** Answering the datagrams of a query one after the other is answering one search for all its names. */
  lemma {:induction false} BatchesAreOneSearch(local: map<Name, Topic>, batches: seq<seq<Name>>, order: seq<Name>)
    ensures AllAnswers(local, Searches(batches), order)
         == Answers(local, Search(WithoutEmpty(Flatten(batches))), order)
  {
    if batches != [] {
      hide Replies;
      var rest := Flatten(batches[1..]);
      assert Searches(batches)[1..] == Searches(batches[1..]);
      BatchesAreOneSearch(local, batches[1..], order);
      WithoutEmptyConcat(batches[0], rest);
      RepliesConcat(local, WithoutEmpty(batches[0]), WithoutEmpty(rest), order);
    }
  }

  lemma {:induction false} SearchesAre(batches: seq<seq<Name>>)
    ensures |Searches(batches)| == |batches|
    ensures forall i :: 0 <= i < |batches| ==> Searches(batches)[i] == Search(WithoutEmpty(batches[i]))
  {
    if batches != [] {
      SearchesAre(batches[1..]);
    }
  }

  /** Every datagram of a query is the line of one of its searches, and fits its buffer. */
  lemma PackedLines(guid: Guid, sent: seq<string>, batches: seq<seq<Name>>)
    requires Packed(guid, sent, batches)
    ensures |sent| == |Searches(batches)|
    ensures forall i :: 0 <= i < |sent| ==>
              LineOf(guid, Searches(batches)[i], sent[i]) && FitsBuffers(Searches(batches)[i], sent[i])
  {
    SearchesAre(batches);
    forall i | 0 <= i < |sent|
      ensures LineOf(guid, Searches(batches)[i], sent[i]) && FitsBuffers(Searches(batches)[i], sent[i])
    {
      assert SearchLineFor(guid, WithoutEmpty(batches[i]), batches[i], sent[i]);
    }
  }

  // ---------------------------------------------------------------- writing

  /** The info text that is kept with a topic. */
  method BuildTopicInfo(name: Name, socketType: nat, address: string, ins: seq<string>, outs: seq<string>)
    returns (info: string)
    requires socketType < |SOCKET_TYPES|
    ensures info == TopicInfo(name, socketType, address, ins, outs)
  {
    var inTypes := WriteTypes(ins);
    var outTypes := WriteTypes(outs);
    var types := inTypes + [SPACE] + outTypes;
    info := name + [SPACE] + (SOCKET_TYPES[socketType] + [SPACE] + (address + [SPACE] + types));
  }

  /** How much of the send buffer a line takes, or that it would have been written past its end. */
  datatype Sending = Printed(length: nat) | TooLong

  lemma LineIs(guid: Guid, command: char, args: string, head: string)
    requires head == [SPACE] + [command] + if args == "" then "" else [SPACE]
    ensures Line(guid, command, args) == DISPATCH + guid + head + args
  {
  }

  /** Prints a line into a send buffer, with its terminator. */
  method Send(buf: array<char>, guid: Guid, command: char, args: string) returns (r: Sending)
    requires buf.Length == EVENT_BUFFER_SIZE
    modifies buf
    ensures var line := Line(guid, command, args);
            && r == (if |line| < EVENT_BUFFER_SIZE then Printed(|line|) else TooLong)
            && (r.Printed? ==> buf[..|line|] == line && buf[|line|] == NUL)
  {
    hide Line;
    var head := [SPACE] + [command] + if args == "" then "" else [SPACE];
    LineIs(guid, command, args, head);
    if |DISPATCH| + |guid| + |head| + |args| >= EVENT_BUFFER_SIZE {
      return TooLong;
    }
    CopyString(buf, 0, DISPATCH);
    assert buf[..|DISPATCH|] == DISPATCH;
    CopyString(buf, |DISPATCH|, guid);
    assert buf[..|DISPATCH| + |guid|] == DISPATCH + guid;
    CopyString(buf, |DISPATCH| + |guid|, head);
    CopyString(buf, |DISPATCH| + |guid| + |head|, args);
    r := Printed(|DISPATCH| + |guid| + |head| + |args|);
  }

  /** Prints the line of an announcement or a withdrawal into a send buffer. */
  method WriteMessage(buf: array<char>, guid: Guid, message: Message, ins: seq<string>, outs: seq<string>)
    returns (r: Sending, ghost line: string)
    requires buf.Length == EVENT_BUFFER_SIZE && (message.Available? || message.Remove?)
    requires message.Available? ==>
               && 0 <= message.offer.socketType < |SOCKET_TYPES|
               && Orders(ins, message.offer.inputTypes) && Orders(outs, message.offer.outputTypes)
    modifies buf
    ensures LineOf(guid, message, line)
    ensures r == if FitsBuffers(message, line) then Printed(|line|) else TooLong
    ensures r.Printed? ==> buf[..|line|] == line && buf[|line|] == NUL
  {
    hide Line;
    match message {
      case Available(name, offer) =>
        var info := BuildTopicInfo(name, offer.socketType, offer.address, ins, outs);
        line := Line(guid, DISCOVERY_AVAILABLE, info);
        assert AnnouncementLine(guid, name, offer, ins, outs, line);
        r := Send(buf, guid, DISCOVERY_AVAILABLE, info);
      case Remove(name) =>
        line := Line(guid, DISCOVERY_REMOVE, name);
        r := Send(buf, guid, DISCOVERY_REMOVE, name);
    }
  }

  /** The line of an exit, which does not go through a send buffer. */
  method WriteExit(guid: Guid) returns (line: string)
    ensures LineOf(guid, Exit, line)
  {
    line := DISPATCH + guid + [SPACE] + [DISCOVERY_EXIT];
  }
}
