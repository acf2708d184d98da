/**
 The request client: one request at a time over a request socket that follows the newest server.
 */
module RequestClient {
  import opened Topics

  // ---------------------------------------------------------------- the newest topic

  /** The running maximum over the topics in guid order: a later topic wins only if it is newer. */
  function Newest(topics: seq<Topic>): Topic
    requires topics != []
  {
    var last := |topics| - 1;
    if last == 0 then topics[0]
    else
      var best := Newest(topics[..last]);
      if topics[last].timestamp > best.timestamp then topics[last] else best
  }

  /** It is the first of the topics with the greatest timestamp. */
  lemma {:induction false} NewestIsFirstMaximum(topics: seq<Topic>) returns (k: nat)
    requires topics != []
    ensures k < |topics| && topics[k] == Newest(topics)
    ensures forall i :: 0 <= i < |topics| ==> topics[i].timestamp <= topics[k].timestamp
    ensures forall i :: 0 <= i < k ==> topics[i].timestamp < topics[k].timestamp
  {
    var last := |topics| - 1;
    if last == 0 {
      k := 0;
    } else {
      k := NewestIsFirstMaximum(topics[..last]);
      assert forall i :: 0 <= i < last ==> topics[i] == topics[..last][i];
      if topics[last].timestamp > topics[k].timestamp {
        k := last;
      }
    }
  }

  /** `NoTopics` is the exception thrown for an empty map. */
  datatype Choice = NoTopics | Chosen(topic: Topic)

  method NewestTopic(topics: seq<Topic>) returns (r: Choice)
    ensures r == if topics == [] then NoTopics else Chosen(Newest(topics))
  {
    if topics == [] {
      return NoTopics;
    }
    var newest := topics[0];
    assert topics[..1] == [topics[0]];
    for i := 1 to |topics|
      invariant newest == Newest(topics[..i])
    {
      assert topics[..i + 1][..i] == topics[..i];
      if topics[i].timestamp > newest.timestamp {
        newest := topics[i];
      }
    }
    assert topics[..|topics|] == topics;
    r := Chosen(newest);
  }

  // ---------------------------------------------------------------- what a request socket may do

  /** What happens on the client's sockets, in order. */
  datatype Traffic = Opened(socket: nat) | Sent(socket: nat) | Got(socket: nat) | Closed(socket: nat)

  /** A request socket alternates strictly between sending and receiving, and there is one at a time. */
  datatype Protocol = Nothing(sockets: nat) | Idle(sockets: nat) | Busy(sockets: nat) | Broken

  /** The live socket is always the one opened last, so `sockets - 1` is its number. */
  function Accept(p: Protocol, t: Traffic): Protocol
  {
    match (p, t)
    case (Nothing(n), Opened(s)) => if s == n then Idle(n + 1) else Broken
    case (Idle(n), Sent(s)) => if s + 1 == n then Busy(n) else Broken
    case (Busy(n), Got(s)) => if s + 1 == n then Idle(n) else Broken
    case (Idle(n), Closed(s)) => if s + 1 == n then Nothing(n) else Broken
    case (Busy(n), Closed(s)) => if s + 1 == n then Nothing(n) else Broken
    case _ => Broken
  }

  function Observe(log: seq<Traffic>): Protocol
  {
    if log == [] then Nothing(0) else Accept(Observe(log[..|log| - 1]), log[|log| - 1])
  }

  lemma ObserveAppend(log: seq<Traffic>, t: Traffic)
    ensures Observe(log + [t]) == Accept(Observe(log), t)
  {
    assert (log + [t])[..|log|] == log;
  }

  // ---------------------------------------------------------------- the client

  datatype Socket = NoSocket | Socket(id: nat)

  /**
   `armed` is the pending wait of the timeout timer; `expired` counts its handlers that are already
   queued to run with success, which cancelling the timer does not stop.  `handler` is who gets a reply, and
   `listening` says that a receive is posted on the socket.
   */
  datatype State = State(
    socket: Socket, waiting: bool, listening: bool, topic: Topic, handler: nat, sockets: nat, armed: bool,
    expired: nat, log: seq<Traffic>)

  datatype Step =
    | Request(handler: nat, sendSucceeds: bool, timed: bool)
    | Reply
    | ReceiveFails
    | Expire
    | TimeoutFires
    | Notify(topics: seq<Topic>)

  datatype Code = Ok | AlreadyInProgress | NotConnected | SendFailed

  function Open(s: State, topic: Topic): State
  {
    s.(socket := Socket(s.sockets), listening := false, topic := topic, sockets := s.sockets + 1,
       log := s.log + [Opened(s.sockets)])
  }

  function Disconnect(s: State): State
  {
    if s.socket.NoSocket? then s
    else s.(socket := NoSocket, listening := false, log := s.log + [Closed(s.socket.id)])
  }

  function Connect(s: State, topic: Topic): State
  {
    if s.socket.Socket? && topic == s.topic then s else Open(Disconnect(s), topic)
  }

  function Reconnect(s: State): State
  {
    if s.socket.NoSocket? then s else Connect(Disconnect(s), s.topic)
  }

  function Cleanup(s: State): State
  {
    s.(armed := false, waiting := false)
  }

  function RequestCode(s: State, sendSucceeds: bool): Code
  {
    if s.waiting then AlreadyInProgress
    else if s.socket.NoSocket? then NotConnected
    else if !sendSucceeds then SendFailed
    else Ok
  }

  /** The reply handler is replaced before the request is looked at, also when it is then refused. */
  function AfterRequest(s: State, handler: nat, sendSucceeds: bool, timed: bool): State
  {
    var t := s.(handler := handler);
    if RequestCode(s, sendSucceeds) != Ok || s.socket.NoSocket? then t
    else t.(waiting := true, listening := true, armed := s.armed || timed, log := s.log + [Sent(s.socket.id)])
  }

  /** A receive ends, with a reply or an error, only on the current socket and while it has an unanswered request. */
  predicate Enabled(s: State, step: Step)
  {
    match step
    case Request(_, _, _) => true
    case Reply => Observe(s.log).Busy? && s.listening
    case ReceiveFails => Observe(s.log).Busy? && s.listening
    case Expire => s.armed
    case TimeoutFires => s.expired > 0
    case Notify(_) => true
  }

  function Next(s: State, step: Step): State
    requires Enabled(s, step)
  {
    match step
    case Request(handler, sendSucceeds, timed) => AfterRequest(s, handler, sendSucceeds, timed)
    case Reply =>
      var c := Cleanup(s);
      c.(listening := false, log := c.log + [Got(if s.socket.Socket? then s.socket.id else 0)])
    case ReceiveFails => s.(listening := false)
    case Expire => s.(armed := false, expired := s.expired + 1)
    case TimeoutFires => Reconnect(Cleanup(s.(expired := s.expired - 1)))
    case Notify(topics) => if topics == [] then Disconnect(s) else Connect(s, Newest(topics))
  }

  function Start(topic: Topic): State
  {
    State(NoSocket, false, false, topic, 0, 0, false, 0, [])
  }

  predicate Run(s: State, steps: seq<Step>, t: State)
    decreases |steps|
  {
    if steps == [] then s == t else Enabled(s, steps[0]) && Run(Next(s, steps[0]), steps[1..], t)
  }

  /**
   The sockets have behaved, a client that is not waiting has no unanswered request, and it only listens for
   the answer to one.
   */
  ghost predicate Inv(s: State)
  {
    && (match Observe(s.log)
        case Nothing(n) => s.socket.NoSocket? && n == s.sockets
        case Idle(n) => s.socket == Socket(n - 1) && n == s.sockets
        case Busy(n) => s.socket == Socket(n - 1) && n == s.sockets && s.waiting
        case Broken => false)
    && (s.armed ==> s.waiting) && (s.listening ==> Observe(s.log).Busy?)
  }

  lemma DisconnectKeeps(s: State)
    requires Inv(s)
    ensures Inv(Disconnect(s)) && Disconnect(s).socket.NoSocket?
  {
    hide Observe;
    if s.socket.Socket? {
      ObserveAppend(s.log, Closed(s.socket.id));
    }
  }

  lemma ConnectKeeps(s: State, topic: Topic)
    requires Inv(s)
    ensures Inv(Connect(s, topic)) && Connect(s, topic).socket.Socket? && Connect(s, topic).topic == topic
    ensures !(s.socket.Socket? && topic == s.topic) ==> Observe(Connect(s, topic).log).Idle?
  {
    hide Observe;
    if !(s.socket.Socket? && topic == s.topic) {
      DisconnectKeeps(s);
      ObserveAppend(Disconnect(s).log, Opened(s.sockets));
    }
  }

  /** A client that stops waiting because of a timeout gets a fresh socket, if it had one. */
  lemma TimeoutKeeps(s: State)
    requires Inv(s) && s.expired > 0
    ensures Inv(Next(s, TimeoutFires)) && !Observe(Next(s, TimeoutFires).log).Busy?
  {
    hide Observe;
    var c := s.(expired := s.expired - 1);
    if c.socket.Socket? {
      DisconnectKeeps(c);
      ConnectKeeps(Disconnect(c), c.topic);
      assert Reconnect(Cleanup(c)) == Cleanup(Connect(Disconnect(c), c.topic));
    }
  }

  /**
   After a timeout, however late, a client that had a socket has a fresh one to the same server, with nothing
   asked on it, so that its next request is accepted; one that had none still has none.
   */
  lemma TimeoutReconnects(s: State)
    requires Inv(s) && s.expired > 0
    ensures var t := Next(s, TimeoutFires);
            && !t.waiting && !t.armed && !t.listening && t.expired == s.expired - 1
            && t.topic == s.topic && t.handler == s.handler
            && (s.socket.NoSocket? ==> t.socket.NoSocket? && t.log == s.log)
            && (s.socket.Socket? ==>
                  && t.socket == Socket(s.sockets) && t.sockets == s.sockets + 1 && Observe(t.log).Idle?
                  && t.log == s.log + [Closed(s.socket.id)] + [Opened(s.sockets)]
                  && RequestCode(t, true) == Ok)
  {
    hide Observe;
    if s.socket.Socket? {
      ObserveAppend(s.log, Closed(s.socket.id));
      ObserveAppend(s.log + [Closed(s.socket.id)], Opened(s.sockets));
    }
  }

  lemma TimeoutIs(s: State)
    requires Enabled(s, TimeoutFires)
    ensures s.expired > 0 && Next(s, TimeoutFires) == Reconnect(Cleanup(s.(expired := s.expired - 1)))
  {
  }

  lemma RequestKeeps(s: State, handler: nat, sendSucceeds: bool, timed: bool)
    requires Inv(s)
    ensures Inv(AfterRequest(s, handler, sendSucceeds, timed))
  {
    hide Observe;
    if RequestCode(s, sendSucceeds) == Ok {
      ObserveAppend(s.log, Sent(s.socket.id));
    }
  }

  lemma ReplyKeeps(s: State)
    requires Inv(s) && Enabled(s, Reply)
    ensures Inv(Next(s, Reply))
  {
    hide Observe;
    ObserveAppend(s.log, Got(s.socket.id));
  }

  lemma NotifyKeeps(s: State, topics: seq<Topic>)
    requires Inv(s)
    ensures Inv(Next(s, Notify(topics)))
  {
    hide Observe, Inv, Connect, Disconnect, Newest;
    if topics == [] {
      DisconnectKeeps(s);
    } else {
      ConnectKeeps(s, Newest(topics));
    }
  }

  lemma ExpireKeeps(s: State)
    requires Inv(s)
    ensures Inv(s.(armed := false, expired := s.expired + 1)) && Inv(s.(listening := false))
  {
    hide Observe;
  }

  lemma InvStep(s: State, step: Step)
    requires Inv(s) && Enabled(s, step)
    ensures Inv(Next(s, step))
  {
    hide Observe, Inv, AfterRequest, Connect, Disconnect, Reconnect, Newest;
    match step {
      case Request(handler, sendSucceeds, timed) => RequestKeeps(s, handler, sendSucceeds, timed);
      case Reply => ReplyKeeps(s);
      case ReceiveFails => ExpireKeeps(s);
      case Expire => ExpireKeeps(s);
      case TimeoutFires => TimeoutKeeps(s);
      case Notify(topics) => NotifyKeeps(s, topics);
    }
  }

  /**
   In every run, requests are only sent on a live socket that has no unanswered request, and a client
   that is not waiting has none, whatever timeouts fire late and however the directory changes.
   */
  lemma {:induction false} RequestsAlternate(topic: Topic, steps: seq<Step>, s: State)
    requires Run(Start(topic), steps, s)
    ensures !Observe(s.log).Broken?
    ensures !s.waiting ==> !Observe(s.log).Busy?
  {
    InvRun(Start(topic), steps, s);
  }

  lemma {:induction false} InvRun(s: State, steps: seq<Step>, t: State)
    requires Inv(s) && Run(s, steps, t)
    ensures Inv(t)
    decreases |steps|
  {
    if steps != [] {
      InvStep(s, steps[0]);
      InvRun(Next(s, steps[0]), steps[1..], t);
    }
  }

  /**
   After a notification the client is connected to a newest topic, or to none if there is none.  It keeps its
   socket if it is connected to that very topic, and otherwise opens a fresh one; nothing else changes.
   */
  lemma NotifiedConnection(s: State, topics: seq<Topic>)
    requires Inv(s)
    ensures var t := Next(s, Notify(topics));
            && t.waiting == s.waiting && t.armed == s.armed && t.expired == s.expired && t.handler == s.handler
            && (topics == [] ==> t.socket.NoSocket?)
            && (topics != [] && s.socket.Socket? && s.topic == Newest(topics) ==> t == s)
            && (topics != [] && !(s.socket.Socket? && s.topic == Newest(topics)) ==>
                  t.socket == Socket(s.sockets) && t.topic == Newest(topics) && Observe(t.log).Idle?)
  {
    hide Observe, Newest;
    if topics != [] {
      ConnectKeeps(s, Newest(topics));
    }
  }

  // ---------------------------------------------------------------- when the client is lost

  /** Waiting for a reply that nothing can bring: no receive is posted and no timeout is left. */
  ghost predicate Stuck(s: State)
  {
    s.waiting && !s.listening && !s.armed && s.expired == 0
  }

  /** A stuck client refuses every further request, for ever. */
  lemma {:induction false} StuckForever(s: State, steps: seq<Step>, t: State)
    requires Inv(s) && Stuck(s) && Run(s, steps, t)
    ensures Stuck(t) && forall ok :: RequestCode(t, ok) == AlreadyInProgress
    decreases |steps|
  {
    hide Observe, Newest;
    if steps != [] {
      InvStep(s, steps[0]);
      StuckForever(Next(s, steps[0]), steps[1..], t);
    }
  }

  /**
   A client gets stuck in exactly two ways, both while it listens for an answer without a timeout: the receive
   fails, or the directory takes the socket away or moves the client to another server.
   */
  lemma HowAClientGetsStuck(s: State, step: Step)
    requires Inv(s) && !Stuck(s) && Enabled(s, step)
    ensures Stuck(Next(s, step)) <==>
            && s.listening && !s.armed && s.expired == 0
            && (step.ReceiveFails? || (step.Notify? && (step.topics == [] || Newest(step.topics) != s.topic)))
  {
    hide Observe, Newest;
  }

  /**
   Both ways happen: from the start, a client that sends a request without a timeout to the only server is
   stuck when the receive fails, when it hears that this server is gone, and when another one is newest.
   */
  lemma StuckIsReachable(start: Topic, server: Topic, handler: nat, last: Step) returns (steps: seq<Step>, s: State)
    requires last.ReceiveFails? || (last.Notify? && (last.topics == [] || Newest(last.topics) != server))
    ensures steps == [Notify([server]), Request(handler, true, false), last]
    ensures Run(Start(start), steps, s) && Stuck(s)
  {
    steps := [Notify([server]), Request(handler, true, false), last];
    var connected := Next(Start(start), steps[0]);
    var sent := Next(connected, steps[1]);
    assert Observe([]) == Nothing(0);
    InvStep(Start(start), steps[0]);
    RequestIsOut(start, server, handler);
    InvStep(connected, steps[1]);
    s := Next(sent, last);
    HowAClientGetsStuck(sent, last);
    ThreeSteps(Start(start), steps[0], steps[1], last);
  }

  lemma RequestIsOut(start: Topic, server: Topic, handler: nat)
    ensures var s := Next(Next(Start(start), Notify([server])), Request(handler, true, false));
            Observe(s.log).Busy? && s.listening && s.topic == server && !s.armed && s.expired == 0
  {
    assert Newest([server]) == server;
    ObserveAppend([], Opened(0));
    assert [] + [Opened(0)] == [Opened(0)];
    ObserveAppend([Opened(0)], Sent(0));
  }

  lemma ThreeSteps(s: State, a: Step, b: Step, c: Step)
    requires Enabled(s, a) && Enabled(Next(s, a), b) && Enabled(Next(Next(s, a), b), c)
    ensures Run(s, [a, b, c], Next(Next(Next(s, a), b), c))
  {
    hide Enabled, Next;
    var end := Next(Next(Next(s, a), b), c);
    assert [a, b, c][1..] == [b, c] && [b, c][1..] == [c] && [c][1..] == [];
    assert Run(Next(Next(s, a), b), [c], end);
    assert Run(Next(s, a), [b, c], end);
  }

  // ---------------------------------------------------------------- who gets a reply

  function LastHandler(handler: nat, steps: seq<Step>): nat
    decreases |steps|
  {
    if steps == [] then handler
    else LastHandler(if steps[0].Request? then steps[0].handler else handler, steps[1..])
  }

  /** A reply goes to the handler of the latest request, even if that request was refused. */
  lemma {:induction false} ReplyGoesToTheLatest(s: State, steps: seq<Step>, t: State)
    requires Run(s, steps, t)
    ensures t.handler == LastHandler(s.handler, steps)
    decreases |steps|
  {
    hide Observe, Newest;
    if steps != [] {
      ReplyGoesToTheLatest(Next(s, steps[0]), steps[1..], t);
    }
  }

  // ---------------------------------------------------------------- the object

  class RequestClient {
    var socket: Socket
    var waitingForReceive: bool
    var listening: bool
    var connectedTopic: Topic
    var replyHandler: nat
    var sockets: nat
    var armed: bool
    var expired: nat
    ghost var log: seq<Traffic>

    ghost function Abstract(): State
      reads this
    {
      State(socket, waitingForReceive, listening, connectedTopic, replyHandler, sockets, armed, expired, log)
    }

    ghost predicate Valid()
      reads this
    {
      Inv(Abstract())
    }

    constructor (topic: Topic)
      ensures Valid() && Abstract() == Start(topic)
    {
      socket, waitingForReceive, listening, connectedTopic := NoSocket, false, false, topic;
      replyHandler, sockets, armed, expired, log := 0, 0, false, 0, [];
    }

    method SendRequest(handler: nat, sendSucceeds: bool, timed: bool) returns (code: Code)
      requires Valid()
      modifies this
      ensures Valid() && Abstract() == Next(old(Abstract()), Request(handler, sendSucceeds, timed))
      ensures code == RequestCode(old(Abstract()), sendSucceeds)
      ensures code == AlreadyInProgress <==> old(waitingForReceive)
      ensures code == NotConnected <==> !old(waitingForReceive) && socket.NoSocket?
      ensures code == SendFailed <==> !old(waitingForReceive) && socket.Socket? && !sendSucceeds
      ensures replyHandler == handler && socket == old(socket) && connectedTopic == old(connectedTopic)
      ensures code == Ok ==> socket.Socket? && log == old(log) + [Sent(socket.id)]
      ensures code == Ok ==> waitingForReceive && listening && armed == timed && expired == old(expired)
      ensures code != Ok ==> Abstract() == old(Abstract()).(handler := handler)
    {
      InvStep(Abstract(), Request(handler, sendSucceeds, timed));
      hide Inv, Observe;
      replyHandler := handler;
      if waitingForReceive { return AlreadyInProgress; }
      if socket.NoSocket? { return NotConnected; }
      if !sendSucceeds { return SendFailed; }
      log := log + [Sent(socket.id)];
      listening := true;
      waitingForReceive := true;
      if timed {
        armed := true;
      }
      return Ok;
    }

    method CleanupRequest()
      modifies this
      ensures Abstract() == Cleanup(old(Abstract()))
    {
      armed, waitingForReceive := false, false;
    }

    /** Says which handler gets the reply. */
    method ReceiveReply() returns (handler: nat)
      requires Valid() && Enabled(Abstract(), Reply)
      modifies this
      ensures Valid() && Abstract() == Next(old(Abstract()), Reply) && handler == old(replyHandler)
      ensures !waitingForReceive && !armed && !listening && expired == old(expired)
      ensures socket == old(socket) && socket.Socket? && connectedTopic == old(connectedTopic)
      ensures log == old(log) + [Got(socket.id)]
    {
      InvStep(Abstract(), Reply);
      CleanupRequest();
      listening := false;
      log := log + [Got(socket.id)];
      handler := replyHandler;
    }

    /** An error ends the receive; only the caller's error handler hears of it, and no other receive is posted. */
    method FailReceive()
      requires Valid() && Enabled(Abstract(), ReceiveFails)
      modifies this
      ensures Valid() && Abstract() == Next(old(Abstract()), ReceiveFails)
      ensures Abstract() == old(Abstract()).(listening := false)
      ensures waitingForReceive && (Stuck(Abstract()) <==> !armed && expired == 0)
    {
      InvStep(Abstract(), ReceiveFails);
      listening := false;
    }

    method FireTimeout()
      requires Valid() && Enabled(Abstract(), TimeoutFires)
      modifies this
      ensures Valid() && Abstract() == Next(old(Abstract()), TimeoutFires)
      ensures !waitingForReceive && !armed && !listening && expired == old(expired) - 1
      ensures connectedTopic == old(connectedTopic) && (old(socket).NoSocket? ==> socket.NoSocket?)
      ensures old(socket).Socket? ==>
                socket == Socket(old(sockets)) && Observe(log).Idle? && RequestCode(Abstract(), true) == Ok
    {
      hide Inv, Observe, Reconnect, Cleanup, RequestCode, Next, Enabled;
      TimeoutIs(Abstract());
      InvStep(Abstract(), TimeoutFires);
      TimeoutReconnects(Abstract());
      expired := expired - 1;
      CleanupRequest();
      ReconnectSocket();
    }

    method OnDirectoryTopicsChanged(topics: seq<Topic>)
      requires Valid()
      modifies this
      ensures Valid() && Abstract() == Next(old(Abstract()), Notify(topics))
      ensures if topics == [] then socket.NoSocket? else socket.Socket? && connectedTopic == Newest(topics)
      ensures topics != [] && old(socket).Socket? && old(connectedTopic) == Newest(topics) ==>
                Abstract() == old(Abstract())
      ensures topics != [] && !(old(socket).Socket? && old(connectedTopic) == Newest(topics)) ==>
                socket == Socket(old(sockets)) && Observe(log).Idle?
      ensures waitingForReceive == old(waitingForReceive) && armed == old(armed) && expired == old(expired)
    {
      InvStep(Abstract(), Notify(topics));
      NotifiedConnection(Abstract(), topics);
      hide Inv, Observe, Newest;
      if topics == [] {
        DisconnectSocket();
        return;
      }
      var newest := NewestTopic(topics);
      ConnectSocket(newest.topic);
    }

    method ConnectSocket(topic: Topic)
      modifies this
      ensures Abstract() == Connect(old(Abstract()), topic)
      ensures socket.Socket? && connectedTopic == topic
      ensures if old(socket).Socket? && old(connectedTopic) == topic then Abstract() == old(Abstract())
              else socket == Socket(old(sockets)) && !listening && sockets == old(sockets) + 1
    {
      if socket.Socket? {
        if topic == connectedTopic { return; }
        DisconnectSocket();
      }
      connectedTopic := topic;
      socket, listening := Socket(sockets), false;
      log := log + [Opened(sockets)];
      sockets := sockets + 1;
    }

    method DisconnectSocket()
      modifies this
      ensures Abstract() == Disconnect(old(Abstract()))
      ensures socket.NoSocket? && connectedTopic == old(connectedTopic) && sockets == old(sockets)
      ensures log == old(log) + if old(socket).Socket? then [Closed(old(socket).id)] else []
    {
      if socket.NoSocket? { return; }
      log := log + [Closed(socket.id)];
      socket, listening := NoSocket, false;
    }

    method ReconnectSocket()
      modifies this
      ensures Abstract() == Reconnect(old(Abstract()))
      ensures old(socket).NoSocket? ==> Abstract() == old(Abstract())
      ensures old(socket).Socket? ==>
                && socket == Socket(old(sockets)) && connectedTopic == old(connectedTopic)
                && sockets == old(sockets) + 1 && !listening && waitingForReceive == old(waitingForReceive)
                && log == old(log) + [Closed(old(socket).id)] + [Opened(old(sockets))]
    {
      if socket.NoSocket? { return; }
      var topic := connectedTopic;
      DisconnectSocket();
      ConnectSocket(topic);
    }
  }
}
