/**
 Search datagrams: the missing names are grouped, at most four to a datagram, in fixed-size buffers.
 */
module Query {
  import opened Topics
  import opened Discovery
  import opened Wire
  import opened Datagram

  const MAX_NAMES: nat := 4

  function Header(guid: Guid): string
  {
    DISPATCH + guid + [SPACE] + [DISCOVERY_SEARCH]
  }

  function Spaced(names: seq<Name>): string
  {
    if names == [] then "" else [SPACE] + names[0] + Spaced(names[1..])
  }

  function WithoutEmpty(names: seq<Name>): seq<Name>
  {
    if names == [] then [] else (if names[0] == "" then [] else [names[0]]) + WithoutEmpty(names[1..])
  }

  function Flatten(batches: seq<seq<Name>>): seq<Name>
  {
    if batches == [] then [] else batches[0] + Flatten(batches[1..])
  }

  function SearchLine(guid: Guid, names: seq<Name>): string
  {
    Header(guid) + Spaced(names)
  }

  // ---------------------------------------------------------------- what the receiver makes of a search

  /** The receiver's loop visits each name of a search once, in order; the empty name it skips. */
  lemma {:induction false} SpacedIsRead(names: seq<Name>)
    requires names != [] && forall n :: n in names ==> SPACE !in n
    ensures SearchNames(Spaced(names)[1..]) == WithoutEmpty(names)
    decreases |names|
  {
    var rest := names[1..];
    if rest == [] {
      assert Spaced(names)[1..] == names[0];
      TokenOf(names[0], "");
    } else {
      var tail := Spaced(rest)[1..];
      assert Spaced(rest) == [SPACE] + tail;
      assert Spaced(names)[1..] == names[0] + [SPACE] + tail;
      TokenOf(names[0], tail);
      SpacedIsRead(rest);
    }
  }

  lemma SearchLineShape(guid: Guid, names: seq<Name>)
    requires names != []
    ensures SearchLine(guid, names) == DISPATCH + (guid + [SPACE] + ([DISCOVERY_SEARCH] + [SPACE] + Spaced(names)[1..]))
  {
    assert Spaced(names) == [SPACE] + Spaced(names)[1..];
  }

  lemma {:induction false} PrintableNames(names: seq<Name>)
    ensures Printable(Spaced(names)) <==> forall n :: n in names ==> Printable(n)
  {
    if names != [] {
      PrintableNames(names[1..]);
      PrintableParts([SPACE] + names[0], Spaced(names[1..]));
      PrintableParts([SPACE], names[0]);
      assert names == [names[0]] + names[1..];
    }
  }

  lemma PrintableSearch(guid: Guid, names: seq<Name>)
    requires Printable(guid)
    ensures Printable(SearchLine(guid, names)) <==> forall n :: n in names ==> Printable(n)
  {
    hide Printable;
    PrintableConstants(DISCOVERY_SEARCH);
    PrintableParts(Header(guid), Spaced(names));
    PrintableParts(DISPATCH + guid + [SPACE], [DISCOVERY_SEARCH]);
    PrintableParts(DISPATCH + guid, [SPACE]);
    PrintableParts(DISPATCH, guid);
    PrintableNames(names);
  }

  /** The names heard are tokens of the text. */
  lemma {:induction false} SearchNamesAreTokens(data: string)
    ensures forall n :: n in SearchNames(data) ==> n != "" && SPACE !in n && forall c :: c in n ==> c in data
    decreases |data|
  {
    if data != "" {
      TokenTail(data);
      SearchNamesAreTokens(Tail(data));
      assert forall c :: c in Token(data) || c in Tail(data) ==> c in data;
    }
  }

  lemma {:induction false} InWithoutEmpty(names: seq<Name>, n: Name)
    ensures n in WithoutEmpty(names) <==> n in names && n != ""
  {
    if names != [] {
      InWithoutEmpty(names[1..], n);
      assert names == [names[0]] + names[1..];
    }
  }

  lemma SearchIsRead(me: Guid, onNetwork: string -> bool, guid: Guid, names: seq<Name>)
    requires Plain(guid) && guid != me && names != []
    ensures DecodeLine(me, onNetwork, SearchLine(guid, names)) == Heard(guid, Search(SearchNames(Spaced(names)[1..])))
  {
    var data := Spaced(names)[1..];
    SearchLineShape(guid, names);
    BodyIsRead(me, onNetwork, guid, [DISCOVERY_SEARCH] + [SPACE] + data);
    TokenOf([DISCOVERY_SEARCH], data);
  }

  /**
   A directory hears from `guid` the search the datagram was written for exactly when the guid is plain and not
   its own and all the names are plain.
   */
  lemma SearchRoundTrip(me: Guid, onNetwork: string -> bool, guid: Guid, names: seq<Name>)
    requires names != []
    ensures Decode(me, onNetwork, SearchLine(guid, names)) == Heard(guid, Search(WithoutEmpty(names)))
       <==> Plain(guid) && guid != me && forall n :: n in names ==> Plain(n)
  {
    if Plain(guid) && guid != me {
      PlainSearch(me, onNetwork, guid, names);
    } else if Decode(me, onNetwork, SearchLine(guid, names)) == Heard(guid, Search(WithoutEmpty(names))) {
      SenderIsPlain(me, onNetwork, SearchLine(guid, names));
      assert false;
    }
  }

  lemma PlainSearch(me: Guid, onNetwork: string -> bool, guid: Guid, names: seq<Name>)
    requires Plain(guid) && guid != me && names != []
    ensures Decode(me, onNetwork, SearchLine(guid, names)) == Heard(guid, Search(WithoutEmpty(names)))
       <==> forall n :: n in names ==> Plain(n)
  {
    var data := Spaced(names)[1..];
    SearchIsRead(me, onNetwork, guid, names);
    PrintableSearch(guid, names);
    if forall n :: n in names ==> SPACE !in n {
      SpacedIsRead(names);
    } else {
      var n :| n in names && SPACE in n;
      InWithoutEmpty(names, n);
      SearchNamesAreTokens(data);
    }
  }

  /** What one receiver hears from `guid` in a series of datagrams. */
  function HeardFrom(me: Guid, onNetwork: string -> bool, guid: Guid, sent: seq<string>): seq<Name>
  {
    if sent == [] then []
    else
      var d := Decode(me, onNetwork, sent[0]);
      (if d.Heard? && d.sender == guid && d.message.Search? then d.message.names else [])
      + HeardFrom(me, onNetwork, guid, sent[1..])
  }

  // ---------------------------------------------------------------- writing the datagrams

  /** Copies a string and its terminator into a buffer, as strcpy does. */
  method CopyString(buf: array<char>, pos: nat, s: string)
    requires pos + |s| < buf.Length
    modifies buf
    ensures buf[..pos + |s|] == old(buf[..pos]) + s && buf[pos + |s|] == NUL
  {
    for i := 0 to |s|
      invariant buf[..pos] == old(buf[..pos])
      invariant buf[pos..pos + i] == s[..i]
    {
      buf[pos + i] := s[i];
      assert buf[pos..pos + i + 1] == buf[pos..pos + i] + [s[i]];
    }
    buf[pos + |s|] := NUL;
    assert buf[..pos + |s|] == buf[..pos] + buf[pos..pos + |s|];
  }

  ghost predicate Packed(guid: Guid, sent: seq<string>, batches: seq<seq<Name>>)
  {
    && |sent| == |batches|
    && (forall i :: 0 <= i < |sent| ==>
          && 1 <= |batches[i]| <= MAX_NAMES
          && sent[i] == SearchLine(guid, batches[i]) && |sent[i]| < EVENT_BUFFER_SIZE)
  }

  /** No datagram has room for the first name of the next one. */
  ghost predicate Greedy(sent: seq<string>, batches: seq<seq<Name>>)
    requires |sent| == |batches| && forall i :: 0 <= i < |batches| ==> batches[i] != []
  {
    forall i :: 0 < i < |sent| ==>
      |batches[i - 1]| == MAX_NAMES || |sent[i - 1]| + 1 + |batches[i][0]| >= EVENT_BUFFER_SIZE
  }

  ghost predicate GreedyNext(sent: seq<string>, batches: seq<seq<Name>>, first: Name)
    requires |sent| == |batches|
  {
    sent != [] ==>
      |batches[|sent| - 1]| == MAX_NAMES || |sent[|sent| - 1]| + 1 + |first| >= EVENT_BUFFER_SIZE
  }

  /** The buffer holds an unfinished search datagram for `names`. */
  ghost predicate Holds(buf: array<char>, pos: nat, guid: Guid, names: seq<Name>)
    reads buf
  {
    && buf.Length == EVENT_BUFFER_SIZE && pos < EVENT_BUFFER_SIZE && 1 <= |names| <= MAX_NAMES
    && buf[..pos] == SearchLine(guid, names)
  }

  lemma {:induction false} SpacedAppend(names: seq<Name>, n: Name)
    ensures Spaced(names + [n]) == Spaced(names) + [SPACE] + n
  {
    if names != [] {
      SpacedAppend(names[1..], n);
      assert (names + [n])[1..] == names[1..] + [n];
    }
  }

  lemma {:induction false} FlattenAppend(batches: seq<seq<Name>>, b: seq<Name>)
    ensures Flatten(batches + [b]) == Flatten(batches) + b
  {
    if batches != [] {
      FlattenAppend(batches[1..], b);
      assert (batches + [b])[1..] == batches[1..] + [b];
    }
  }

  method StartBuffer(guid: Guid) returns (buf: array<char>)
    requires |Header(guid)| < EVENT_BUFFER_SIZE
    ensures fresh(buf) && buf.Length == EVENT_BUFFER_SIZE && buf[..|Header(guid)|] == Header(guid)
  {
    buf := new char[EVENT_BUFFER_SIZE];
    CopyString(buf, 0, Header(guid));
    assert buf[..0] == "";
  }

  /** Appends a space and a name to a started buffer. */
  method AppendName(buf: array<char>, pos: nat, guid: Guid, name: Name, ghost names: seq<Name>) returns (next: nat)
    requires buf.Length == EVENT_BUFFER_SIZE && pos + 1 + |name| < EVENT_BUFFER_SIZE
    requires buf[..pos] == SearchLine(guid, names)
    modifies buf
    ensures next == pos + 1 + |name| && buf[..next] == SearchLine(guid, names + [name])
  {
    buf[pos] := SPACE;
    assert buf[..pos + 1] == SearchLine(guid, names) + [SPACE];
    CopyString(buf, pos + 1, name);
    next := pos + 1 + |name|;
    SpacedAppend(names, name);
  }

  /** What has been sent, and what waits in the buffer, after `done` names. */
  ghost predicate Progress(guid: Guid, sent: seq<string>, batches: seq<seq<Name>>, current: seq<Name>, done: seq<Name>)
  {
    && Packed(guid, sent, batches) && Greedy(sent, batches)
    && Flatten(batches) + current == done
    && if current == [] then sent == [] else GreedyNext(sent, batches, current[0])
  }

  /** Sending a datagram adds one batch. */
  lemma SendOne(guid: Guid, sent: seq<string>, batches: seq<seq<Name>>, current: seq<Name>, done: seq<Name>)
    requires Progress(guid, sent, batches, current, done)
    requires 1 <= |current| <= MAX_NAMES && |SearchLine(guid, current)| < EVENT_BUFFER_SIZE
    ensures Packed(guid, sent + [SearchLine(guid, current)], batches + [current])
    ensures Greedy(sent + [SearchLine(guid, current)], batches + [current])
    ensures Flatten(batches + [current]) == done
  {
    FlattenAppend(batches, current);
  }

  lemma OneMoreName(guid: Guid, sent: seq<string>, batches: seq<seq<Name>>, current: seq<Name>, done: seq<Name>,
                    name: Name)
    requires Progress(guid, sent, batches, current, done)
    ensures Progress(guid, sent, batches, current + [name], done + [name])
  {
    assert Flatten(batches) + (current + [name]) == (Flatten(batches) + current) + [name];
  }

  lemma NewDatagram(guid: Guid, sent: seq<string>, batches: seq<seq<Name>>, current: seq<Name>, done: seq<Name>,
                    name: Name)
    requires Progress(guid, sent, batches, current, done)
    requires 1 <= |current| <= MAX_NAMES && |SearchLine(guid, current)| < EVENT_BUFFER_SIZE
    requires |current| == MAX_NAMES || |SearchLine(guid, current)| + 1 + |name| >= EVENT_BUFFER_SIZE
    ensures Progress(guid, sent + [SearchLine(guid, current)], batches + [current], [name], done + [name])
  {
    SendOne(guid, sent, batches, current, done);
  }

  lemma PrefixStep(names: seq<Name>, i: nat)
    requires i < |names|
    ensures names[i] in names && names[..i + 1] == names[..i] + [names[i]]
  {
  }

  /** The state of the loop between two names. */
  datatype Outgoing = Outgoing(sent: seq<string>, pos: nat, count: nat)

  /** One turn of the loop: starts a new datagram if the name does not fit this one, and adds the name. */
  method PutName(guid: Guid, name: Name, out: Outgoing, buf: array<char>,
                 ghost batches: seq<seq<Name>>, ghost current: seq<Name>, ghost done: seq<Name>)
    returns (out': Outgoing, buf': array<char>, ghost batches': seq<seq<Name>>, ghost current': seq<Name>)
    requires |Header(guid)| + 1 + |name| < EVENT_BUFFER_SIZE
    requires Progress(guid, out.sent, batches, current, done)
    requires |current| == out.count && (out.count > 0 ==> Holds(buf, out.pos, guid, current))
    modifies buf
    ensures Progress(guid, out'.sent, batches', current', done + [name])
    ensures |current'| == out'.count && Holds(buf', out'.pos, guid, current')
    ensures buf' == buf || fresh(buf')
  {
    buf', batches', current' := buf, batches, current;
    var sent, pos, count := out.sent, out.pos, out.count;
    if count == 0 || pos + 1 + |name| >= EVENT_BUFFER_SIZE || count >= MAX_NAMES {
      if count > 0 {
        NewDatagram(guid, sent, batches, current, done, name);
        sent := sent + [buf[..pos]];
        batches' := batches + [current];
      } else {
        OneMoreName(guid, sent, batches, current, done, name);
      }
      buf' := StartBuffer(guid);
      pos, count, current' := |Header(guid)|, 0, [];
      assert SearchLine(guid, []) == Header(guid);
    } else {
      OneMoreName(guid, sent, batches, current, done, name);
    }
    pos := AppendName(buf', pos, guid, name, current');
    current' := current' + [name];
    out' := Outgoing(sent, pos, count + 1);
  }

  method SendRest(guid: Guid, out: Outgoing, buf: array<char>,
                  ghost batches: seq<seq<Name>>, ghost current: seq<Name>, ghost done: seq<Name>)
    returns (sent: seq<string>, ghost batches': seq<seq<Name>>)
    requires Progress(guid, out.sent, batches, current, done)
    requires |current| == out.count && (out.count > 0 ==> Holds(buf, out.pos, guid, current))
    ensures Flatten(batches') == done && Packed(guid, sent, batches') && Greedy(sent, batches')
  {
    sent, batches' := out.sent, batches;
    if out.count > 0 {
      SendOne(guid, sent, batches, current, done);
      sent := sent + [buf[..out.pos]];
      batches' := batches + [current];
    }
  }

  /** A name fits after the header of a datagram of its own, with the terminator. */
  predicate NameFits(guid: Guid, name: Name)
  {
    |Header(guid)| + 1 + |name| < EVENT_BUFFER_SIZE
  }

  /** Sends every batch, and stops before a name that would overflow the buffer. */
  method SendBatches(guid: Guid, requests: seq<Name>)
    returns (ok: bool, sent: seq<string>, ghost batches: seq<seq<Name>>)
    ensures ok <==> forall n :: n in requests ==> NameFits(guid, n)
    ensures Packed(guid, sent, batches) && Greedy(sent, batches)
    ensures |Flatten(batches)| <= |requests| && Flatten(batches) == requests[..|Flatten(batches)|]
    ensures if ok then Flatten(batches) == requests
            else |Flatten(batches)| < |requests| && !NameFits(guid, requests[|Flatten(batches)|])
  {
    hide Progress, Packed, Greedy, Flatten, Holds;
    batches := [];
    var buf := new char[0];
    var out := Outgoing([], |Header(guid)|, 0);
    ghost var current: seq<Name> := [];
    NoProgress(guid);
    for i := 0 to |requests|
      invariant Progress(guid, out.sent, batches, current, requests[..i])
      invariant fresh(buf) && |current| == out.count && (out.count > 0 ==> Holds(buf, out.pos, guid, current))
      invariant forall n :: n in requests[..i] ==> NameFits(guid, n)
    {
      PrefixStep(requests, i);
      if |Header(guid)| + 1 + |requests[i]| >= EVENT_BUFFER_SIZE {
        sent, batches := SendRest(guid, out, buf, batches, current, requests[..i]);
        return false, sent, batches;
      }
      out, buf, batches, current := PutName(guid, requests[i], out, buf, batches, current, requests[..i]);
      HoldsSome(buf, out.pos, guid, current);
    }
    assert requests[..|requests|] == requests;
    sent, batches := SendRest(guid, out, buf, batches, current, requests);
    ok := true;
  }

  lemma NoProgress(guid: Guid)
    ensures Progress(guid, [], [], [], [])
  {
  }

  lemma HoldsSome(buf: array<char>, pos: nat, guid: Guid, names: seq<Name>)
    requires Holds(buf, pos, guid, names)
    ensures |names| > 0
  {
  }

  /** The condition under which a query is heard by directory `me` as it was meant. */
  predicate Askable(me: Guid, guid: Guid, requests: seq<Name>)
  {
    && (forall n :: n in requests ==> Plain(n))
    && ((Plain(guid) && guid != me) || forall n :: n in requests ==> n == "")
  }

  /**
   Writes the search datagrams for the missing names, and says whether all of them fit.  The batches are the
   names in order, up to the first that does not fit a datagram of its own; they have at most four names each,
   every datagram fits its buffer with its terminator, and none is left half full.  A directory that receives
   the datagrams of a complete query hears each name once, in order, exactly when the query is askable.
   */
  method QueryMissing(guid: Guid, requests: seq<Name>)
    returns (ok: bool, sent: seq<string>, ghost batches: seq<seq<Name>>)
    ensures ok <==> forall n :: n in requests ==> NameFits(guid, n)
    ensures Packed(guid, sent, batches) && Greedy(sent, batches)
    ensures |Flatten(batches)| <= |requests| && Flatten(batches) == requests[..|Flatten(batches)|]
    ensures if ok then Flatten(batches) == requests
            else |Flatten(batches)| < |requests| && !NameFits(guid, requests[|Flatten(batches)|])
    ensures ok ==> forall me: Guid, onNetwork: string -> bool ::
              HeardFrom(me, onNetwork, guid, sent) == WithoutEmpty(requests) <==> Askable(me, guid, requests)
    ensures forall line :: line in sent ==> |line| < EVENT_BUFFER_SIZE
  {
    ok, sent, batches := SendBatches(guid, requests);
    forall me: Guid, onNetwork: string -> bool
      ensures HeardFrom(me, onNetwork, guid, sent) == WithoutEmpty(Flatten(batches))
         <==> Askable(me, guid, Flatten(batches))
    {
      QueryIsHeard(me, onNetwork, guid, sent, batches);
    }
  }

  lemma {:induction false} EveryBatchIsHeard(
    me: Guid, onNetwork: string -> bool, guid: Guid, sent: seq<string>, batches: seq<seq<Name>>)
    requires Plain(guid) && guid != me && Packed(guid, sent, batches)
    requires forall n :: n in Flatten(batches) ==> Plain(n)
    ensures HeardFrom(me, onNetwork, guid, sent) == WithoutEmpty(Flatten(batches))
  {
    hide Decode, Plain;
    if sent != [] {
      assert forall n :: n in batches[0] ==> n in Flatten(batches);
      SearchRoundTrip(me, onNetwork, guid, batches[0]);
      assert forall n :: n in Flatten(batches[1..]) ==> n in Flatten(batches);
      EveryBatchIsHeard(me, onNetwork, guid, sent[1..], batches[1..]);
      WithoutEmptyConcat(batches[0], Flatten(batches[1..]));
    }
  }

  /** Nothing is heard from a guid that is not plain, or from the receiver itself. */
  lemma {:induction false} NothingIsHeard(me: Guid, onNetwork: string -> bool, guid: Guid, sent: seq<string>)
    requires !Plain(guid) || guid == me
    ensures HeardFrom(me, onNetwork, guid, sent) == []
  {
    hide Decode, Plain;
    if sent != [] {
      var d := Decode(me, onNetwork, sent[0]);
      if d.Heard? {
        SenderIsPlain(me, onNetwork, sent[0]);
      }
      NothingIsHeard(me, onNetwork, guid, sent[1..]);
    }
  }

  lemma NothingToAsk(names: seq<Name>)
    ensures WithoutEmpty(names) == [] <==> forall n :: n in names ==> n == ""
  {
    forall n
      ensures n in WithoutEmpty(names) <==> n in names && n != ""
    {
      InWithoutEmpty(names, n);
    }
    if WithoutEmpty(names) != [] {
      assert WithoutEmpty(names)[0] in WithoutEmpty(names);
    }
  }

  lemma SearchHeardIsWord(me: Guid, onNetwork: string -> bool, line: string, n: Name)
    requires Decode(me, onNetwork, line).Heard? && Decode(me, onNetwork, line).message.Search?
    requires n in Decode(me, onNetwork, line).message.names
    ensures Word(n)
  {
    hide Token, Tail, SearchNames;
    var text := line[|DISPATCH|..];
    SearchNamesAreTokens(Tail(Tail(text)));
    forall c | c in n ensures IsPrint(c) {
      TailChars(Tail(text), c);
      TailChars(text, c);
      assert c in text ==> c in line;
    }
  }

  /** Whatever the datagrams, only plain names are heard. */
  lemma {:induction false} OnlyPlainIsHeard(
    me: Guid, onNetwork: string -> bool, guid: Guid, sent: seq<string>, n: Name)
    requires n in HeardFrom(me, onNetwork, guid, sent)
    ensures Plain(n)
  {
    hide Decode, Plain;
    var d := Decode(me, onNetwork, sent[0]);
    if d.Heard? && d.sender == guid && d.message.Search? && n in d.message.names {
      SearchHeardIsWord(me, onNetwork, sent[0], n);
    } else {
      OnlyPlainIsHeard(me, onNetwork, guid, sent[1..], n);
    }
  }

  /**
   Whoever receives all the datagrams hears every missing name exactly as often as it was listed, in order, if
   and only if all the names are plain and so is the guid, which is not the receiver's, or nothing is asked for.
   The empty name, which stands for "every topic", is never asked for.
   */
  lemma QueryIsHeard(me: Guid, onNetwork: string -> bool, guid: Guid, sent: seq<string>, batches: seq<seq<Name>>)
    requires Packed(guid, sent, batches)
    ensures HeardFrom(me, onNetwork, guid, sent) == WithoutEmpty(Flatten(batches))
       <==> Askable(me, guid, Flatten(batches))
  {
    hide Plain, Packed, Flatten;
    var requests := Flatten(batches);
    NothingToAsk(requests);
    if !Plain(guid) || guid == me {
      NothingIsHeard(me, onNetwork, guid, sent);
      EmptyIsPlain();
    } else if forall n :: n in requests ==> Plain(n) {
      EveryBatchIsHeard(me, onNetwork, guid, sent, batches);
    } else {
      var n :| n in requests && !Plain(n);
      EmptyIsPlain();
      InWithoutEmpty(requests, n);
      if n in HeardFrom(me, onNetwork, guid, sent) {
        OnlyPlainIsHeard(me, onNetwork, guid, sent, n);
        assert false;
      }
    }
  }

  lemma EmptyIsPlain()
    ensures Plain("")
  {
  }

  lemma {:induction false} WithoutEmptyConcat(a: seq<Name>, b: seq<Name>)
    ensures WithoutEmpty(a + b) == WithoutEmpty(a) + WithoutEmpty(b)
  {
    if a == [] {
      assert a + b == b;
    } else {
      assert (a + b)[1..] == a[1..] + b;
      WithoutEmptyConcat(a[1..], b);
    }
  }
}
