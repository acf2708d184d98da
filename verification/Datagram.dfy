/**
 Whole discovery datagrams: what a line of text says, how the receive buffer is read, and the round
 trip from a message to its line and back.
 */
module Datagram {
  import opened Topics
  import opened Discovery
  import opened Wire
  import opened TypeList

  datatype Decoded = Ignored | Heard(sender: Guid, message: Message)

  const SOCKET_TYPES: seq<string> :=
    ["PAIR", "PUB", "SUB", "REQ", "REP", "DEALER", "ROUTER", "PULL", "PUSH", "XPUB", "XSUB", "STREAM"]

  function SocketTypeFrom(name: string, i: nat): (r: int)
    ensures r == -1 || (0 <= r < |SOCKET_TYPES| && SOCKET_TYPES[r] == name)
    decreases |SOCKET_TYPES| - i
  {
    if i >= |SOCKET_TYPES| then -1 else if SOCKET_TYPES[i] == name then i else SocketTypeFrom(name, i + 1)
  }

  /** The number of a socket type name, or -1 for a name that is none. */
  function FromName(name: string): int
  {
    SocketTypeFrom(name, 0)
  }

  lemma SocketTypesDiffer(i: nat, k: nat)
    requires i < k < |SOCKET_TYPES|
    ensures SOCKET_TYPES[i] != SOCKET_TYPES[k]
  {
  }

  lemma SocketTypeIsWord(k: nat)
    requires k < |SOCKET_TYPES|
    ensures Word(SOCKET_TYPES[k])
  {
  }

  lemma {:induction false} FromNameFinds(i: nat, k: nat)
    requires i <= k < |SOCKET_TYPES|
    ensures SocketTypeFrom(SOCKET_TYPES[k], i) == k && Word(SOCKET_TYPES[k])
    decreases k - i
  {
    hide Word;
    SocketTypeIsWord(k);
    if i < k {
      SocketTypesDiffer(i, k);
      FromNameFinds(i + 1, k);
    }
  }

  // ---------------------------------------------------------------- what a line says

  function DecodeAvailable(sender: Guid, onNetwork: string -> bool, data: string): Decoded
  {
    var name, afterName := Token(data), Tail(data);
    var kind, afterKind := Token(afterName), Tail(afterName);
    var address, types := Token(afterKind), Tail(afterKind);
    var outs := Tail(types);
    if name == "" || kind == "" || address == "" || types == "" || outs == "" then Ignored
    else if !onNetwork(address) || FromName(kind) < 0 then Ignored
    else Heard(sender, Available(name, Offer(FromName(kind), address, Parsed(Token(types)), Parsed(Token(outs)))))
  }

  /** The names in a search, empty tokens skipped. */
  function SearchNames(data: string): seq<Name>
    decreases |data|
  {
    if data == "" then [] else
      TokenTail(data);
      (if Token(data) == "" then [] else [Token(data)]) + SearchNames(Tail(data))
  }

  function DecodeBody(sender: Guid, onNetwork: string -> bool, command: char, data: string): Decoded
  {
    if command == DISCOVERY_AVAILABLE then DecodeAvailable(sender, onNetwork, data)
    else if command == DISCOVERY_SEARCH then Heard(sender, Search(SearchNames(data)))
    else if command == DISCOVERY_EXIT then Heard(sender, Exit)
    else if command == DISCOVERY_REMOVE then Heard(sender, Remove(Token(data)))
    else Ignored
  }

  /** What a line without a non-printable character says. */
  function DecodeLine(me: Guid, onNetwork: string -> bool, line: string): Decoded
  {
    if !(DISPATCH <= line) then Ignored else
      var text := line[|DISPATCH|..];
      var sender, body := Token(text), Tail(text);
      var command, data := Token(body), Tail(body);
      if sender == me || command == "" then Ignored
      else DecodeBody(sender, onNetwork, command[0], data)
  }

  /** What a datagram says; one with a non-printable character is dropped. */
  function Decode(me: Guid, onNetwork: string -> bool, line: string): Decoded
  {
    if Printable(line) then DecodeLine(me, onNetwork, line) else Ignored
  }

  // ---------------------------------------------------------------- the grammar of a line

  /** A text is a token followed by nothing, or by a space and the rest. */
  predicate Cuts(text: string, token: string, rest: string)
  {
    SPACE !in token && ((text == token && rest == "") || text == token + [SPACE] + rest)
  }

  lemma CutsOnce(text: string, token: string, rest: string)
    ensures Cuts(text, token, rest) <==> token == Token(text) && rest == Tail(text)
  {
    TokenTail(text);
    if Cuts(text, token, rest) {
      TokenOf(token, rest);
    }
  }

  /** Five fields in a row, of which the last may be followed by more. */
  ghost predicate Fields(data: string, name: Name, kind: string, address: string, ins: string, outs: string)
  {
    exists r1, r2, r3, r4, r5 ::
      && Cuts(data, name, r1) && Cuts(r1, kind, r2) && Cuts(r2, address, r3) && Cuts(r3, ins, r4) && Cuts(r4, outs, r5)
      && r3 != "" && r4 != ""
  }

  /** What the arguments of a command mean. */
  ghost predicate Means(onNetwork: string -> bool, command: char, data: string, message: Message)
  {
    match message
    case Available(name, offer) =>
      && command == DISCOVERY_AVAILABLE && 0 <= offer.socketType < |SOCKET_TYPES|
      && name != "" && offer.address != "" && onNetwork(offer.address)
      && exists ins, outs ::
           && Fields(data, name, SOCKET_TYPES[offer.socketType], offer.address, ins, outs)
           && offer.inputTypes == Parsed(ins) && offer.outputTypes == Parsed(outs)
    case Search(names) => command == DISCOVERY_SEARCH && names == SearchNames(data)
    case Remove(name) => command == DISCOVERY_REMOVE && exists rest :: Cuts(data, name, rest)
    case Exit => command == DISCOVERY_EXIT
  }

  /** A printable line says a message: tag, sender, command word and arguments, with single spaces between. */
  ghost predicate Says(onNetwork: string -> bool, line: string, sender: Guid, message: Message)
  {
    && Printable(line) && DISPATCH <= line
    && exists body, command, data ::
         && Cuts(line[|DISPATCH|..], sender, body) && Cuts(body, command, data)
         && command != "" && Means(onNetwork, command[0], data, message)
  }

  lemma FieldsOnce(data: string, name: Name, kind: string, address: string, ins: string, outs: string)
    ensures Fields(data, name, kind, address, ins, outs) <==>
            var r1 := Tail(data); var r2 := Tail(r1); var r3 := Tail(r2); var r4 := Tail(r3);
            && name == Token(data) && kind == Token(r1) && address == Token(r2) && ins == Token(r3) && outs == Token(r4)
            && r3 != "" && r4 != ""
  {
    hide Token, Tail, Cuts;
    var r1 := Tail(data);
    var r2 := Tail(r1);
    var r3 := Tail(r2);
    var r4 := Tail(r3);
    forall text, token, rest
      ensures Cuts(text, token, rest) <==> token == Token(text) && rest == Tail(text)
    {
      CutsOnce(text, token, rest);
    }
    if name == Token(data) && kind == Token(r1) && address == Token(r2) && ins == Token(r3) && outs == Token(r4)
       && r3 != "" && r4 != "" {
      assert Cuts(data, name, r1) && Cuts(r1, kind, r2) && Cuts(r2, address, r3) && Cuts(r3, ins, r4)
          && Cuts(r4, outs, Tail(r4));
    }
  }

  lemma FromNameIs(kind: string, i: int)
    ensures FromName(kind) == i >= 0 <==> 0 <= i < |SOCKET_TYPES| && SOCKET_TYPES[i] == kind
  {
    if 0 <= i < |SOCKET_TYPES| && SOCKET_TYPES[i] == kind {
      FromNameFinds(0, i);
    }
  }

  lemma BodyMeans(sender: Guid, onNetwork: string -> bool, command: char, data: string, message: Message)
    ensures DecodeBody(sender, onNetwork, command, data) == Heard(sender, message)
       <==> Means(onNetwork, command, data, message)
  {
    hide Token, Tail, Parsed, FromName, Fields, Cuts, SearchNames;
    match message {
      case Available(name, offer) =>
        var ins, outs := Token(Tail(Tail(Tail(data)))), Token(Tail(Tail(Tail(Tail(data)))));
        forall i, o
          ensures 0 <= offer.socketType < |SOCKET_TYPES| ==>
            (Fields(data, name, SOCKET_TYPES[offer.socketType], offer.address, i, o) ==> i == ins && o == outs)
        {
          if 0 <= offer.socketType < |SOCKET_TYPES| {
            FieldsOnce(data, name, SOCKET_TYPES[offer.socketType], offer.address, i, o);
          }
        }
        FromNameIs(Token(Tail(data)), offer.socketType);
        AvailableMeans(sender, onNetwork, data, name, offer, ins, outs);
      case Search(names) =>
      case Remove(name) => CutsOnce(data, name, Tail(data)); CutsOnceAny(data, name);
      case Exit =>
    }
  }

  lemma CutsOnceAny(text: string, token: string)
    ensures (exists rest :: Cuts(text, token, rest)) <==> token == Token(text)
  {
    hide Token, Tail, Cuts;
    CutsOnce(text, token, Tail(text));
    forall rest ensures Cuts(text, token, rest) ==> token == Token(text) {
      CutsOnce(text, token, rest);
    }
  }

  lemma AvailableMeans(sender: Guid, onNetwork: string -> bool, data: string, name: Name, offer: Offer,
                       ins: string, outs: string)
    requires ins == Token(Tail(Tail(Tail(data)))) && outs == Token(Tail(Tail(Tail(Tail(data)))))
    ensures DecodeAvailable(sender, onNetwork, data) == Heard(sender, Available(name, offer)) <==>
            && 0 <= offer.socketType < |SOCKET_TYPES|
            && name != "" && offer.address != "" && onNetwork(offer.address)
            && Fields(data, name, SOCKET_TYPES[offer.socketType], offer.address, ins, outs)
            && offer.inputTypes == Parsed(ins) && offer.outputTypes == Parsed(outs)
  {
    hide Token, Tail, Parsed, FromName, Fields, Cuts;
    var kind := Token(Tail(data));
    FromNameIs(kind, offer.socketType);
    FromNameIs(kind, FromName(kind));
    NoSocketType();
    if 0 <= offer.socketType < |SOCKET_TYPES| {
      FieldsOnce(data, name, SOCKET_TYPES[offer.socketType], offer.address, ins, outs);
    }
  }

  lemma NoSocketType()
    ensures FromName("") < 0 && forall i :: 0 <= i < |SOCKET_TYPES| ==> SOCKET_TYPES[i] != ""
  {
    forall i | 0 <= i < |SOCKET_TYPES| ensures SOCKET_TYPES[i] != "" {
      SocketTypeIsWord(i);
    }
  }

  /** A message is heard from a datagram if and only if the datagram says it and is not the receiver's own. */
  lemma HeardIfSaid(me: Guid, onNetwork: string -> bool, line: string, sender: Guid, message: Message)
    ensures Decode(me, onNetwork, line) == Heard(sender, message)
       <==> Says(onNetwork, line, sender, message) && sender != me
  {
    hide Token, Tail, Cuts, DecodeBody, Means, Printable;
    if DISPATCH <= line {
      var text := line[|DISPATCH|..];
      var body := Tail(text);
      CutsOnce(text, sender, body);
      CutsOnce(body, Token(body), Tail(body));
      forall b, c, d
        ensures Cuts(text, sender, b) && Cuts(b, c, d) ==>
                  sender == Token(text) && b == body && c == Token(body) && d == Tail(body)
      {
        CutsOnce(text, sender, b);
        CutsOnce(b, c, d);
      }
      if Token(body) != "" {
        BodyMeans(sender, onNetwork, Token(body)[0], Tail(body), message);
        if DecodeBody(Token(text), onNetwork, Token(body)[0], Tail(body)).Heard? {
          BodySender(Token(text), onNetwork, Token(body)[0], Tail(body));
        }
      }
    }
  }

  /** The names of a search are the texts between its spaces, without the empty ones, in order. */
  lemma {:induction false} SearchNamesSplit(a: string, b: string)
    ensures SearchNames(a + [SPACE] + b) == SearchNames(a) + SearchNames(b)
    ensures SPACE !in a ==> SearchNames(a) == if a == "" then [] else [a]
    decreases |a|
  {
    hide Token, Tail, SearchNames;
    TokenTail(a);
    SearchNamesUnfold(a);
    SearchNamesUnfold(a + [SPACE] + b);
    if SPACE in a {
      var rest := Tail(a);
      assert a + [SPACE] + b == Token(a) + [SPACE] + (rest + [SPACE] + b);
      TokenOf(Token(a), rest + [SPACE] + b);
      SearchNamesSplit(rest, b);
    } else {
      TokenOf(a, b);
      SearchNamesUnfold("");
    }
  }

  lemma SearchNamesUnfold(data: string)
    ensures SearchNames(data)
         == if data == "" then [] else (if Token(data) == "" then [] else [Token(data)]) + SearchNames(Tail(data))
  {
  }

  // ---------------------------------------------------------------- reading the receive buffer

  /**
   Cuts one token and reads it.  Reading it at once or when the whole line is cut is the same, since
   later cuts are behind it.
   */
  method NextField(event: array<char>, base: nat, pos: nat, ghost text: string) returns (value: string, next: nat)
    requires event.Length == EVENT_BUFFER_SIZE + 1 && At(event[..], base + pos, text)
    modifies event
    ensures value == Token(text) && At(event[..], base + next, Tail(text))
    ensures base + next <= EVENT_BUFFER_SIZE
    ensures pos <= next && (next == pos <==> text == "")
  {
    hide Token, Tail, At;
    TokenTail(text);
    next := NextToken(event, base, pos, text);
    value := ReadString(event, base + pos, Token(text));
  }

  method HandleAvailable(event: array<char>, base: nat, sender: Guid, onNetwork: string -> bool, ghost data: string)
    returns (r: Decoded)
    requires event.Length == EVENT_BUFFER_SIZE + 1 && At(event[..], base, data)
    modifies event
    ensures r == DecodeAvailable(sender, onNetwork, data)
  {
    hide Token, Tail, At, Parsed;
    TokenOf("", "");
    var name, afterName := NextField(event, base, 0, data);
    if afterName == 0 || name == "" { return Ignored; }
    ghost var text1 := Tail(data);
    var kind, afterKind := NextField(event, base, afterName, text1);
    if afterKind == afterName || kind == "" { return Ignored; }
    ghost var text2 := Tail(text1);
    var address, afterAddress := NextField(event, base, afterKind, text2);
    if afterAddress == afterKind || address == "" { return Ignored; }
    ghost var text3 := Tail(text2);
    var ins, afterIns := NextField(event, base, afterAddress, text3);
    if afterIns == afterAddress { return Ignored; }
    ghost var text4 := Tail(text3);
    var outs, afterOuts := NextField(event, base, afterIns, text4);
    if afterOuts == afterIns { return Ignored; }
    if !onNetwork(address) { return Ignored; }
    var socketType := FromName(kind);
    if socketType < 0 { return Ignored; }
    var inputTypes := ParseTypes(ins);
    var outputTypes := ParseTypes(outs);
    r := Heard(sender, Available(name, Offer(socketType, address, inputTypes, outputTypes)));
  }

  lemma SearchStep(names: seq<Name>, data: string)
    requires data != ""
    ensures |Tail(data)| < |data|
    ensures names + SearchNames(data)
         == (names + if Token(data) == "" then [] else [Token(data)]) + SearchNames(Tail(data))
  {
    hide Token, Tail;
    TokenTail(data);
  }

  /** The loop over the names of a search, up to the end of the buffer's text. */
  method HandleSearch(event: array<char>, base: nat, ghost data: string) returns (names: seq<Name>)
    requires event.Length == EVENT_BUFFER_SIZE + 1 && At(event[..], base, data)
    modifies event
    ensures names == SearchNames(data)
  {
    hide Token, Tail, At, SearchNames;
    AtFits(event[..], base, data);
    names := [];
    var pos := 0;
    ghost var rest, all := data, SearchNames(data);
    while event[base + pos] != NUL
      invariant base + pos <= EVENT_BUFFER_SIZE && At(event[..], base + pos, rest)
      invariant all == names + SearchNames(rest)
      decreases |rest|
    {
      AtStart(event[..], base + pos, rest);
      SearchStep(names, rest);
      var name, next := NextField(event, base, pos, rest);
      if name != "" {
        names := names + [name];
      }
      pos, rest := next, Tail(rest);
    }
    AtStart(event[..], base + pos, rest);
    NoSearchNames();
  }

  lemma NoSearchNames()
    ensures SearchNames("") == []
  {
  }

  method StartsWithTag(event: array<char>, ghost line: string) returns (r: bool)
    requires event.Length == EVENT_BUFFER_SIZE + 1 && At(event[..], 0, line)
    ensures r <==> DISPATCH <= line
  {
    for i := 0 to |DISPATCH|
      invariant i <= |line| && DISPATCH[..i] == line[..i]
    {
      assert event[..][i] == event[i];
      if event[i] != DISPATCH[i] {
        return false;
      }
    }
    assert DISPATCH[..|DISPATCH|] == DISPATCH;
    r := true;
  }

  method HandleBody(event: array<char>, base: nat, sender: Guid, onNetwork: string -> bool, command: char,
                    ghost data: string)
    returns (r: Decoded)
    requires event.Length == EVENT_BUFFER_SIZE + 1 && At(event[..], base, data)
    modifies event
    ensures r == DecodeBody(sender, onNetwork, command, data)
  {
    if command == DISCOVERY_AVAILABLE {
      r := HandleAvailable(event, base, sender, onNetwork, data);
    } else if command == DISCOVERY_SEARCH {
      var names := HandleSearch(event, base, data);
      r := Heard(sender, Search(names));
    } else if command == DISCOVERY_EXIT {
      r := Heard(sender, Exit);
    } else if command == DISCOVERY_REMOVE {
      var name, end := NextField(event, base, 0, data);
      r := Heard(sender, Remove(name));
    } else {
      r := Ignored;
    }
  }

  /** Reads the line in the receive buffer by cutting it into tokens in place. */
  method HandleEvent(event: array<char>, me: Guid, onNetwork: string -> bool, ghost line: string) returns (r: Decoded)
    requires event.Length == EVENT_BUFFER_SIZE + 1 && At(event[..], 0, line)
    modifies event
    ensures r == DecodeLine(me, onNetwork, line)
  {
    var tagged := StartsWithTag(event, line);
    if !tagged { return Ignored; }
    ghost var text := line[|DISPATCH|..];
    var sender, afterSender := NextField(event, 0, |DISPATCH|, text);
    if sender == me { return Ignored; }
    ghost var body := Tail(text);
    var next := NextToken(event, 0, afterSender, body);
    var command := event[afterSender];
    assert event[..][afterSender] == command;
    if command == NUL {
      assert Token(body) == "";
      return Ignored;
    }
    r := HandleBody(event, next, sender, onNetwork, command, Tail(body));
  }

  /** Handles the first `bytes` characters of the receive buffer, if they are all printable. */
  method HandleDatagram(event: array<char>, bytes: nat, me: Guid, onNetwork: string -> bool) returns (r: Decoded)
    requires event.Length == EVENT_BUFFER_SIZE + 1 && bytes <= EVENT_BUFFER_SIZE
    modifies event
    ensures r == Decode(me, onNetwork, old(event[..bytes]))
  {
    ghost var line := event[..bytes];
    for i := 0 to bytes
      invariant event[..bytes] == line
      invariant forall k :: 0 <= k < i ==> IsPrint(event[k])
    {
      if !IsPrint(event[i]) {
        assert line[i] in line;
        return Ignored;
      }
    }
    event[bytes] := NUL;
    Terminated(event[..], line);
    r := HandleEvent(event, me, onNetwork, line);
  }

  lemma Terminated(s: seq<char>, line: string)
    requires |line| < |s| && s[..|line|] == line && s[|line|] == NUL
    requires forall k :: 0 <= k < |line| ==> IsPrint(s[k])
    ensures At(s, 0, line) && Printable(line)
  {
    assert forall k :: 0 <= k < |line| ==> line[k] == s[k];
  }

  // ---------------------------------------------------------------- writing lines, and the round trip

  /** The text that announces a topic; `ins` and `outs` are the iteration orders of its type sets. */
  function TopicInfo(name: Name, socketType: nat, address: string, ins: seq<string>, outs: seq<string>): string
    requires socketType < |SOCKET_TYPES|
  {
    var types := Written(ins) + [SPACE] + Written(outs);
    name + [SPACE] + (SOCKET_TYPES[socketType] + [SPACE] + (address + [SPACE] + types))
  }

  function Line(guid: Guid, command: char, args: string): string
  {
    DISPATCH + (guid + [SPACE] + if args == "" then [command] else [command] + [SPACE] + args)
  }

  /** What becomes of a line that is printed into the send buffer: nothing is said of one that does not fit it. */
  datatype Outcome = Overflow | Arrived(decoded: Decoded)

  function Exchange(me: Guid, onNetwork: string -> bool, line: string): Outcome
  {
    if |line| < EVENT_BUFFER_SIZE then Arrived(Decode(me, onNetwork, line)) else Overflow
  }

  /** What the receive buffer takes of a datagram. */
  function Cut(line: string): string
  {
    if |line| <= EVENT_BUFFER_SIZE then line else line[..EVENT_BUFFER_SIZE]
  }

  lemma PrintableParts(a: string, b: string)
    ensures Printable(a + b) <==> Printable(a) && Printable(b)
  {
    assert forall c :: c in a + b <==> c in a || c in b;
  }

  lemma PrintableLine(guid: Guid, command: char, args: string)
    requires Printable(guid) && IsPrint(command)
    ensures Printable(Line(guid, command, args)) <==> Printable(args)
  {
    hide Printable;
    var body := if args == "" then [command] else [command] + [SPACE] + args;
    PrintableConstants(command);
    PrintableParts(DISPATCH, guid + [SPACE] + body);
    PrintableParts(guid + [SPACE], body);
    PrintableParts(guid, [SPACE]);
    PrintableParts([command] + [SPACE], args);
    PrintableParts([command], [SPACE]);
  }

  lemma PrintableConstants(command: char)
    requires IsPrint(command)
    ensures Printable(DISPATCH) && Printable([SPACE]) && Printable([command]) && Printable("")
  {
  }

  lemma BodyIsRead(me: Guid, onNetwork: string -> bool, guid: Guid, body: string)
    requires Plain(guid) && guid != me
    ensures DecodeLine(me, onNetwork, DISPATCH + (guid + [SPACE] + body))
         == if Token(body) == "" then Ignored else DecodeBody(guid, onNetwork, Token(body)[0], Tail(body))
  {
    var line := DISPATCH + (guid + [SPACE] + body);
    assert line[|DISPATCH|..] == guid + [SPACE] + body;
    TokenOf(guid, body);
  }

  lemma TailChars(s: string, c: char)
    requires c in Tail(s) || c in Token(s)
    ensures c in s
  {
    TokenTail(s);
  }

  lemma BodySender(sender: Guid, onNetwork: string -> bool, command: char, data: string)
    requires DecodeBody(sender, onNetwork, command, data).Heard?
    ensures DecodeBody(sender, onNetwork, command, data).sender == sender
  {
    hide Token, Tail;
  }

  /** No message is heard from a guid with a space or a non-printable character, or from the receiver itself. */
  lemma SenderIsPlain(me: Guid, onNetwork: string -> bool, line: string)
    requires Decode(me, onNetwork, line).Heard?
    ensures Plain(Decode(me, onNetwork, line).sender) && Decode(me, onNetwork, line).sender != me
  {
    hide Token, Tail, DecodeBody;
    var text := line[|DISPATCH|..];
    var body := Tail(text);
    if Token(body) != "" {
      BodySender(Token(text), onNetwork, Token(body)[0], Tail(body));
    }
    TokenTail(text);
    forall c | c in Token(text) ensures IsPrint(c) {
      TailChars(text, c);
      assert c in text ==> c in line;
    }
  }

  /** A receiver reads the sender and the command, and hands printable arguments on as they were written. */
  lemma LineIsRead(me: Guid, onNetwork: string -> bool, guid: Guid, command: char, args: string)
    requires Plain(guid) && guid != me && command != SPACE && IsPrint(command)
    ensures Decode(me, onNetwork, Line(guid, command, args))
         == if Printable(args) then DecodeBody(guid, onNetwork, command, args) else Ignored
  {
    var body := if args == "" then [command] else [command] + [SPACE] + args;
    PrintableLine(guid, command, args);
    BodyIsRead(me, onNetwork, guid, body);
    TokenOf([command], args);
  }

  /** The fields of an announcement before the types come back whatever the types are. */
  lemma FieldsAreRead(guid: Guid, onNetwork: string -> bool, name: Name, socketType: nat, address: string,
                      types: string)
    requires Word(name) && Word(address) && socketType < |SOCKET_TYPES|
    requires onNetwork(address) && types != ""
    ensures DecodeAvailable(guid, onNetwork,
                            name + [SPACE] + (SOCKET_TYPES[socketType] + [SPACE] + (address + [SPACE] + types)))
         == var ins, outs := Token(types), Tail(types);
            if outs == "" then Ignored
            else Heard(guid, Available(name, Offer(socketType, address, Parsed(ins), Parsed(Token(outs)))))
  {
    var kind := SOCKET_TYPES[socketType];
    FromNameFinds(0, socketType);
    var text2 := address + [SPACE] + types;
    var text1 := kind + [SPACE] + text2;
    TokenOf(name, text1);
    TokenOf(kind, text2);
    TokenOf(address, types);
  }

  /** The type sets that survive on a line: writable, printable and without spaces in the names. */
  predicate Readable(order: seq<string>)
  {
    Writable(order) && forall t :: t in order ==> Plain(t)
  }

  /** A type set that would survive on a line if that were not filtered for non-printable characters. */
  predicate Tokenised(order: seq<string>)
  {
    Writable(order) && SPACE !in Written(order)
  }

  lemma WrittenIsNotEmpty(order: seq<string>)
    requires SetOrder(order) && Writable(order)
    ensures Written(order) != ""
  {
    TypesRoundTrip(order);
    if order != [] {
      assert order[0] in SetOf(order);
    }
  }

  /** A token never gives back a type name that has a space in it. */
  lemma SpacedTypesAreLost(order: seq<string>, s: string)
    requires SPACE in Written(order)
    ensures Parsed(Token(s)) != SetOf(order)
  {
    WrittenChars(order, SPACE);
    var t :| t in order && SPACE in t;
    assert t in SetOf(order);
    TokenTail(s);
    if t in Parsed(Token(s)) {
      ParsedChars(Token(s), t);
      assert false;
    }
  }

  lemma ReadableMeans(order: seq<string>)
    ensures Readable(order) <==> Tokenised(order) && Printable(Written(order))
  {
    WrittenChars(order, SPACE);
    if Writable(order) {
      PrintableTypes(order);
    }
  }

  lemma PrintableTypes(order: seq<string>)
    requires Writable(order)
    ensures Printable(Written(order)) <==> forall t :: t in order ==> Printable(t)
  {
    forall c | c != SEPARATOR && c != NO_TYPES[0]
      ensures c in Written(order) <==> c != NUL && exists t :: t in order && c in t
    {
      WrittenChars(order, c);
    }
    if t :| t in order && !Printable(t) {
      var c :| c in t && !IsPrint(c);
      assert c in Written(order);
    }
  }

  /** The types of an announcement, after the filter, come back exactly when both sets can be cut into tokens. */
  lemma TypesAreRead(guid: Guid, onNetwork: string -> bool, name: Name, socketType: nat,
                     address: string, ins: seq<string>, outs: seq<string>)
    requires Word(name) && Word(address) && socketType < |SOCKET_TYPES|
    requires onNetwork(address) && SetOrder(ins) && SetOrder(outs)
    ensures DecodeAvailable(guid, onNetwork, TopicInfo(name, socketType, address, ins, outs))
            == Heard(guid, Available(name, Offer(socketType, address, SetOf(ins), SetOf(outs))))
        <==> Tokenised(ins) && Tokenised(outs)
  {
    hide Token, Tail, Parsed, Written, DecodeAvailable, SetOf, Writable, Word, SetOrder;
    var types := Written(ins) + [SPACE] + Written(outs);
    FieldsAreRead(guid, onNetwork, name, socketType, address, types);
    TypesRoundTrip(ins);
    TypesRoundTrip(outs);
    if SPACE in Written(ins) {
      SpacedTypesAreLost(ins, types);
    } else {
      TokenOf(Written(ins), Written(outs));
      if Written(outs) == "" {
        if Writable(outs) {
          WrittenIsNotEmpty(outs);
        }
      } else if SPACE in Written(outs) {
        SpacedTypesAreLost(outs, Written(outs));
      } else {
        TokenOf(Written(outs), "");
      }
    }
  }

  lemma PrintableInfo(name: Name, socketType: nat, address: string, ins: seq<string>, outs: seq<string>)
    requires socketType < |SOCKET_TYPES|
    ensures Printable(TopicInfo(name, socketType, address, ins, outs)) <==>
            Printable(name) && Printable(address) && Printable(Written(ins)) && Printable(Written(outs))
  {
    hide Printable, Word;
    var kind, types := SOCKET_TYPES[socketType], Written(ins) + [SPACE] + Written(outs);
    PrintableConstants('A');
    PrintableKind(socketType);
    PrintableParts(name + [SPACE], kind + [SPACE] + (address + [SPACE] + types));
    PrintableParts(name, [SPACE]);
    PrintableParts(kind + [SPACE], address + [SPACE] + types);
    PrintableParts(kind, [SPACE]);
    PrintableParts(address + [SPACE], types);
    PrintableParts(address, [SPACE]);
    PrintableParts(Written(ins) + [SPACE], Written(outs));
    PrintableParts(Written(ins), [SPACE]);
  }

  lemma PrintableKind(socketType: nat)
    requires socketType < |SOCKET_TYPES|
    ensures Printable(SOCKET_TYPES[socketType])
  {
    FromNameFinds(0, socketType);
  }

  /** What is heard as an announcement has a name and an address that are tokens, and comes from this network. */
  lemma HeardFields(guid: Guid, onNetwork: string -> bool, data: string, name: Name, offer: Offer)
    requires DecodeAvailable(guid, onNetwork, data) == Heard(guid, Available(name, offer))
    ensures name != "" && SPACE !in name && offer.address != "" && SPACE !in offer.address && onNetwork(offer.address)
  {
    TokenTail(data);
    TokenTail(Tail(Tail(data)));
  }

  lemma AnnouncementIsRead(me: Guid, onNetwork: string -> bool, guid: Guid, name: Name, socketType: nat,
                           address: string, ins: seq<string>, outs: seq<string>)
    requires socketType < |SOCKET_TYPES| && SetOrder(ins) && SetOrder(outs)
    ensures Decode(me, onNetwork, Line(guid, DISCOVERY_AVAILABLE, TopicInfo(name, socketType, address, ins, outs)))
            == Heard(guid, Available(name, Offer(socketType, address, SetOf(ins), SetOf(outs))))
        <==> && Plain(guid) && guid != me && Word(name) && Word(address) && onNetwork(address)
             && Readable(ins) && Readable(outs)
  {
    hide Decode, DecodeAvailable, Readable, Tokenised, Printable;
    var info := TopicInfo(name, socketType, address, ins, outs);
    var message := Available(name, Offer(socketType, address, SetOf(ins), SetOf(outs)));
    if Plain(guid) && guid != me {
      LineIsRead(me, onNetwork, guid, DISCOVERY_AVAILABLE, info);
      PrintableInfo(name, socketType, address, ins, outs);
      ReadableMeans(ins);
      ReadableMeans(outs);
      if Word(name) && Word(address) && onNetwork(address) {
        TypesAreRead(guid, onNetwork, name, socketType, address, ins, outs);
      } else if DecodeAvailable(guid, onNetwork, info) == Heard(guid, message) {
        HeardFields(guid, onNetwork, info, name, message.offer);
      }
    } else if Decode(me, onNetwork, Line(guid, DISCOVERY_AVAILABLE, info)) == Heard(guid, message) {
      SenderIsPlain(me, onNetwork, Line(guid, DISCOVERY_AVAILABLE, info));
      assert false;
    }
  }

  lemma RemoveIsRead(me: Guid, onNetwork: string -> bool, guid: Guid, name: Name)
    ensures Decode(me, onNetwork, Line(guid, DISCOVERY_REMOVE, name)) == Heard(guid, Remove(name))
       <==> Plain(guid) && guid != me && Plain(name)
  {
    if Plain(guid) && guid != me {
      LineIsRead(me, onNetwork, guid, DISCOVERY_REMOVE, name);
      TokenTail(name);
    } else if Decode(me, onNetwork, Line(guid, DISCOVERY_REMOVE, name)) == Heard(guid, Remove(name)) {
      SenderIsPlain(me, onNetwork, Line(guid, DISCOVERY_REMOVE, name));
      assert false;
    }
  }

  lemma PrefixBehind(a: string, b: string, n: nat)
    requires |a| <= n <= |a| + |b|
    ensures (a + b)[..n][|a|..] == b[..n - |a|]
  {
  }

  lemma PrefixBefore(a: string, b: string, n: nat)
    requires n <= |a|
    ensures (a + b)[..n] == a[..n]
  {
  }

  /** The beginning of an exit line, without its last character, says nothing. */
  lemma CutExitIsIgnored(me: Guid, onNetwork: string -> bool, guid: Guid, n: nat)
    requires Plain(guid) && |DISPATCH| <= n < |Line(guid, DISCOVERY_EXIT, "")|
    ensures Decode(me, onNetwork, Line(guid, DISCOVERY_EXIT, "")[..n]).Ignored?
  {
    var text := Line(guid, DISCOVERY_EXIT, "")[..n][|DISPATCH|..];
    PrefixBehind(DISPATCH, guid + [SPACE] + [DISCOVERY_EXIT], n);
    PrefixBefore(guid + [SPACE], [DISCOVERY_EXIT], n - |DISPATCH|);
    if |text| <= |guid| {
      assert text == guid[..|text|];
      assert SPACE !in text;
      TokenTail(text);
    } else {
      assert text == guid + [SPACE] + "";
      TokenOf(guid, "");
    }
  }

  lemma ExitIsRead(me: Guid, onNetwork: string -> bool, guid: Guid)
    ensures Decode(me, onNetwork, Cut(Line(guid, DISCOVERY_EXIT, ""))) == Heard(guid, Exit)
       <==> Plain(guid) && guid != me && |Line(guid, DISCOVERY_EXIT, "")| <= EVENT_BUFFER_SIZE
  {
    hide Decode;
    var line := Line(guid, DISCOVERY_EXIT, "");
    if Plain(guid) && guid != me {
      if |line| <= EVENT_BUFFER_SIZE {
        LineIsRead(me, onNetwork, guid, DISCOVERY_EXIT, "");
      } else {
        CutExitIsIgnored(me, onNetwork, guid, EVENT_BUFFER_SIZE);
      }
    } else if Decode(me, onNetwork, Cut(line)) == Heard(guid, Exit) {
      SenderIsPlain(me, onNetwork, Cut(line));
      assert false;
    }
  }

  /** How long an announcement is, from the lengths of its fields. */
  lemma AnnouncementLength(guid: Guid, name: Name, socketType: nat, address: string, ins: seq<string>,
                           outs: seq<string>)
    requires socketType < |SOCKET_TYPES|
    ensures |Line(guid, DISCOVERY_AVAILABLE, TopicInfo(name, socketType, address, ins, outs))|
         == 16 + |guid| + |name| + |SOCKET_TYPES[socketType]| + |address| + |Written(ins)| + |Written(outs)|
  {
  }

  /**
   An announcement comes back as it went, with the same sender, name, socket type, address and both type sets,
   exactly when its line fits the send buffer, the guid is plain and not the receiver's, name and address are
   words, the address is on the network, and both type sets survive on a line.
   */
  lemma AnnouncementRoundTrip(me: Guid, onNetwork: string -> bool, guid: Guid, name: Name, socketType: nat,
                              address: string, ins: seq<string>, outs: seq<string>)
    requires socketType < |SOCKET_TYPES| && SetOrder(ins) && SetOrder(outs)
    ensures var line := Line(guid, DISCOVERY_AVAILABLE, TopicInfo(name, socketType, address, ins, outs));
            Exchange(me, onNetwork, line)
            == Arrived(Heard(guid, Available(name, Offer(socketType, address, SetOf(ins), SetOf(outs)))))
            <==> && |line| < EVENT_BUFFER_SIZE && Plain(guid) && guid != me
                 && Word(name) && Word(address) && onNetwork(address) && Readable(ins) && Readable(outs)
  {
    hide Decode, Readable, Plain, Word, Line;
    AnnouncementIsRead(me, onNetwork, guid, name, socketType, address, ins, outs);
  }

  /**
   A withdrawal comes back exactly when its line fits the send buffer and guid and name are plain.  An exit is
   not printed into that buffer: it comes back exactly when the receive buffer holds it and the guid is plain.
   */
  lemma RemoveAndExitRoundTrip(me: Guid, onNetwork: string -> bool, guid: Guid, name: Name)
    ensures var line := Line(guid, DISCOVERY_REMOVE, name);
            Exchange(me, onNetwork, line) == Arrived(Heard(guid, Remove(name)))
            <==> |line| < EVENT_BUFFER_SIZE && Plain(guid) && guid != me && Plain(name)
    ensures var line := Line(guid, DISCOVERY_EXIT, "");
            Decode(me, onNetwork, Cut(line)) == Heard(guid, Exit)
            <==> |line| <= EVENT_BUFFER_SIZE && Plain(guid) && guid != me
  {
    hide Decode, Plain, Line;
    RemoveIsRead(me, onNetwork, guid, name);
    ExitIsRead(me, onNetwork, guid);
  }

  /** A directory never acts on its own datagrams, whatever they say. */
  lemma OwnLinesAreIgnored(me: Guid, onNetwork: string -> bool, command: char, args: string)
    requires Word(me)
    ensures DecodeLine(me, onNetwork, Line(me, command, args)).Ignored?
    ensures Decode(me, onNetwork, Line(me, command, args)).Ignored?
  {
    var body := if args == "" then [command] else [command] + [SPACE] + args;
    assert Line(me, command, args)[|DISPATCH|..] == me + [SPACE] + body;
    TokenOf(me, body);
  }
}
