/**
 One WebSocket transport across reconnects: authentication, the hello, and the bounded buffer. Each operation is
 a step of `State`; `WebSocketTransport` takes these steps in place.
 */
module Transport {
  import opened Results

  /** An agent message; `encodable` is what validation and encoding say about it. */
  datatype Outgoing = Outgoing(isHello: bool, body: nat, encodable: bool)

  /** What happens on a connection, in order: frames written, and the server's acceptance read. */
  datatype Entry = AuthResponse | Accepted | Sent(message: Outgoing, buffered: bool)

  datatype ConnectionState = Disconnected | Connecting | Connected | Closing

  datatype TransportError =
    | AlreadyConnected | NotConnected | ConnectFailed | AuthenticationRequired | AuthenticationRejected
    | UnexpectedAuthenticationMessage | HelloRequired | HelloAlreadySent | HelloCannotBeBuffered
    | OutboundBufferFull | ProtocolEncoding | Malformed | Broken

  /** What waiting for the next authentication frame comes to. */
  datatype AuthFrame = Challenge | Acceptance | Rejection | Unreadable | Lost

  /** What waiting for the next server message comes to. */
  datatype Incoming = Decoded(body: nat) | Undecodable | NoFrame

  // ---------- Steps ----------

  /**
   `outbound` is the buffer, `log` what happened on the latest connection and `past` on those before it;
   `taken` is every message the buffer ever accepted.
   */
  datatype State = State(
    connected: bool, authenticated: bool, helloSent: bool, outbound: seq<Outgoing>,
    log: seq<Entry>, past: seq<seq<Entry>>, taken: seq<Outgoing>)

  const INITIAL: State := State(false, false, false, [], [], [], [])

  /** `writes` says how many more frames can be written before the connection breaks. */
  datatype Operation =
    | Connect(reached: bool)
    | SendAuthenticationResponse(wellFormed: bool, written: bool)
    | ReceiveAuthentication(frame: AuthFrame)
    | Buffer(message: Outgoing)
    | Send(message: Outgoing, writes: nat)
    | Receive(incoming: Incoming)
    | Close

  function AsBuffered(messages: seq<Outgoing>): seq<Entry> {
    seq(|messages|, i requires 0 <= i < |messages| => Sent(messages[i], true))
  }

  function Dropped(s: State): State { s.(connected := false, authenticated := false, helloSent := false) }

  /** Why a message may not be sent now. */
  function Refusal(s: State, m: Outgoing): Option<TransportError> {
    if !s.connected then Some(NotConnected)
    else if !s.authenticated then Some(AuthenticationRequired)
    else if !s.helloSent && !m.isHello then Some(HelloRequired)
    else if s.helloSent && m.isHello then Some(HelloAlreadySent)
    else None
  }

  /** As much of the buffer is written as the connection takes; if that is not all, the connection is given up. */
  function Emptied(s: State, writes: nat): State {
    var k := if writes < |s.outbound| then writes else |s.outbound|;
    var sent := s.(log := s.log + AsBuffered(s.outbound[..k]), outbound := s.outbound[k..]);
    if k < |s.outbound| then Dropped(sent) else sent
  }

  /** The hello is written, then the buffer. */
  function Greeted(s: State, hello: Outgoing, writes: nat): State {
    Emptied(s.(helloSent := true, log := s.log + [Sent(hello, false)]), writes)
  }

  function Written(s: State, m: Outgoing, writes: nat): State {
    if !m.encodable || writes == 0 then Dropped(s)
    else if m.isHello then Greeted(s, m, writes - 1)
    else s.(log := s.log + [Sent(m, false)])
  }

  function Step(capacity: nat, s: State, op: Operation): State {
    match op
    case Connect(reached) =>
      if s.connected || !reached then s
      else State(true, false, false, s.outbound, [], s.past + [s.log], s.taken)
    case SendAuthenticationResponse(wellFormed, written) =>
      if s.connected && !s.authenticated && wellFormed && written then s.(log := s.log + [AuthResponse]) else s
    case ReceiveAuthentication(frame) =>
      if !s.connected || s.authenticated then s
      else if frame == Acceptance then s.(authenticated := true, log := s.log + [Accepted])
      else if frame == Lost then Dropped(s)
      else s
    case Buffer(m) =>
      if m.encodable && !m.isHello && |s.outbound| < capacity
      then s.(outbound := s.outbound + [m], taken := s.taken + [m]) else s
    case Send(m, writes) =>
      if Refusal(s, m).Some? then s
      else Written(s, m, writes)
    case Receive(incoming) =>
      if s.connected && s.authenticated && s.helloSent && !incoming.Decoded? then Dropped(s) else s
    case Close => Dropped(s)
  }

  /** Any sequence of operations on a new transport. */
  function Run(capacity: nat, operations: seq<Operation>): State {
    if operations == [] then INITIAL
    else Step(capacity, Run(capacity, operations[..|operations| - 1]), operations[|operations| - 1])
  }

  function Connections(s: State): seq<seq<Entry>> { s.past + [s.log] }

  // ---------- What a connection may look like ----------

  ghost predicate NoneSent(log: seq<Entry>) { forall i :: 0 <= i < |log| ==> !log[i].Sent? }

  ghost predicate Stretch(log: seq<Entry>, from: nat, to: nat, buffered: bool)
    requires to <= |log|
  {
    forall i :: from <= i < to ==> log[i].Sent? && !log[i].message.isHello && log[i].buffered == buffered
  }

  /** The hello is entry h, after the acceptance and before anything else sent; the k entries behind it come from the buffer. */
  ghost predicate HelloAt(log: seq<Entry>, h: nat, k: nat) {
    && h + 1 + k <= |log|
    && Accepted in log[..h] && NoneSent(log[..h])
    && log[h].Sent? && log[h].message.isHello && !log[h].buffered
    && Stretch(log, h + 1, h + 1 + k, true) && Stretch(log, h + 1 + k, |log|, false)
  }

  ghost predicate Greeting(log: seq<Entry>) { exists h: nat, k: nat :: HelloAt(log, h, k) }

  ghost predicate Orderly(log: seq<Entry>) { NoneSent(log) || Greeting(log) }

  /** What a connection wrote from the buffer. */
  function Flushed(log: seq<Entry>): seq<Outgoing> {
    if log == [] then []
    else
      var last := log[|log| - 1];
      Flushed(log[..|log| - 1]) + (if last.Sent? && last.buffered then [last.message] else [])
  }

  function AllFlushed(logs: seq<seq<Entry>>): seq<Outgoing> {
    if logs == [] then [] else AllFlushed(logs[..|logs| - 1]) + Flushed(logs[|logs| - 1])
  }

  lemma FlushedNext(log: seq<Entry>, e: Entry)
    ensures Flushed(log + [e]) == Flushed(log) + (if e.Sent? && e.buffered then [e.message] else [])
  {
    assert (log + [e])[..|log|] == log;
  }

  lemma AsBufferedNext(log: seq<Entry>, messages: seq<Outgoing>)
    requires messages != []
    ensures var n := |messages| - 1;
      && messages == messages[..n] + [messages[n]]
      && log + AsBuffered(messages) == (log + AsBuffered(messages[..n])) + [Sent(messages[n], true)]
  {
    var n := |messages| - 1;
    assert AsBuffered(messages) == AsBuffered(messages[..n]) + [Sent(messages[n], true)];
  }

  lemma NothingBuffered(log: seq<Entry>)
    ensures log + AsBuffered([]) == log
  {
  }

  lemma {:induction false} FlushedBlock(log: seq<Entry>, messages: seq<Outgoing>)
    ensures Flushed(log + AsBuffered(messages)) == Flushed(log) + messages
    decreases |messages|
  {
    hide Flushed, AsBuffered;
    if messages == [] {
      NothingBuffered(log);
    } else {
      var n := |messages| - 1;
      FlushedBlock(log, messages[..n]);
      AsBufferedNext(log, messages);
      FlushedNext(log + AsBuffered(messages[..n]), Sent(messages[n], true));
    }
  }

  lemma AllFlushedNext(logs: seq<seq<Entry>>, log: seq<Entry>)
    ensures AllFlushed(logs + [log]) == AllFlushed(logs) + Flushed(log)
  {
    hide Flushed;
    assert (logs + [log])[..|logs|] == logs;
  }

  lemma NothingFlushed(log: seq<Entry>)
    requires forall i :: 0 <= i < |log| ==> !(log[i].Sent? && log[i].buffered)
    ensures Flushed(log) == []
  {
  }

  lemma FlushedTail(log: seq<Entry>, from: nat)
    requires from <= |log| && Stretch(log, from, |log|, false)
    ensures Flushed(log) == Flushed(log[..from])
    decreases |log|
  {
    if from < |log| {
      var shorter := log[..|log| - 1];
      assert shorter[..from] == log[..from];
      FlushedTail(shorter, from);
    } else {
      assert log[..from] == log;
    }
  }

  lemma BlockOf(log: seq<Entry>, from: nat, to: nat) returns (messages: seq<Outgoing>)
    requires from <= to <= |log| && Stretch(log, from, to, true)
    ensures log[from..to] == AsBuffered(messages) && |messages| == to - from
    ensures log[..to] == log[..from] + AsBuffered(messages)
  {
    messages := seq(to - from, i requires 0 <= i < to - from => log[from + i].message);
    assert log[..to] == log[..from] + log[from..to];
  }

  /** On a greeted connection what the buffer gave is exactly the block behind the hello. */
  lemma FlushedIsTheBlock(log: seq<Entry>, h: nat, k: nat)
    requires HelloAt(log, h, k)
    ensures |Flushed(log)| == k && log[h + 1..h + 1 + k] == AsBuffered(Flushed(log))
  {
    hide Flushed, AsBuffered, Stretch, NoneSent;
    FlushedTail(log, h + 1 + k);
    var messages := BlockOf(log, h + 1, h + 1 + k);
    NoneFlushed(log, h);
    FlushedBehind(log[..h + 1], log[..h + 1 + k], messages);
  }

  lemma FlushedBehind(log: seq<Entry>, longer: seq<Entry>, messages: seq<Outgoing>)
    requires Flushed(log) == [] && longer == log + AsBuffered(messages)
    ensures Flushed(longer) == messages
  {
    hide Flushed, AsBuffered;
    FlushedBlock(log, messages);
  }

  lemma NoneFlushed(log: seq<Entry>, h: nat)
    requires h < |log| && NoneSent(log[..h]) && !(log[h].Sent? && log[h].buffered)
    ensures Flushed(log[..h + 1]) == []
  {
    assert forall i :: 0 <= i < h ==> log[..h + 1][i] == log[..h][i];
    NothingFlushed(log[..h + 1]);
  }

  // ---------- The invariant of every run ----------

  ghost predicate NoHellos(messages: seq<Outgoing>) {
    forall i :: 0 <= i < |messages| ==> !messages[i].isHello && messages[i].encodable
  }

  ghost predicate Fits(capacity: nat, s: State) {
    && (s.authenticated ==> s.connected) && (s.helloSent ==> s.authenticated)
    && (s.connected && !s.helloSent ==> NoneSent(s.log) && (s.authenticated ==> Accepted in s.log))
    && (s.helloSent ==> Greeting(s.log))
    && Orderly(s.log) && (forall i :: 0 <= i < |s.past| ==> Orderly(s.past[i]))
    && NoHellos(s.outbound) && |s.outbound| <= capacity
    && s.taken == AllFlushed(s.past) + Flushed(s.log) + s.outbound
  }

  lemma HandshakeFits(capacity: nat, s: State, e: Entry)
    requires Fits(capacity, s) && s.connected && !s.authenticated && !e.Sent?
    ensures Fits(capacity, s.(authenticated := e == Accepted, log := s.log + [e]))
  {
    FlushedNext(s.log, e);
    hide Flushed, AllFlushed, Greeting;
  }

  lemma SendKeepsGreeting(log: seq<Entry>, m: Outgoing)
    requires Greeting(log) && !m.isHello
    ensures Greeting(log + [Sent(m, false)])
  {
    var h: nat, k: nat :| HelloAt(log, h, k);
    assert (log + [Sent(m, false)])[..h] == log[..h];
    assert HelloAt(log + [Sent(m, false)], h, k);
  }

  lemma SendFits(capacity: nat, s: State, m: Outgoing)
    requires Fits(capacity, s) && s.helloSent && !m.isHello
    ensures Fits(capacity, s.(log := s.log + [Sent(m, false)]))
  {
    SendKeepsGreeting(s.log, m);
    FlushedNext(s.log, Sent(m, false));
    hide Flushed, AllFlushed, Greeting;
  }

  lemma HelloGreets(log: seq<Entry>, hello: Outgoing, messages: seq<Outgoing>)
    requires NoneSent(log) && Accepted in log && hello.isHello && NoHellos(messages)
    ensures Greeting(log + [Sent(hello, false)] + AsBuffered(messages))
    ensures Flushed(log + [Sent(hello, false)] + AsBuffered(messages)) == Flushed(log) + messages
  {
    var after := log + [Sent(hello, false)] + AsBuffered(messages);
    assert after[..|log|] == log;
    assert HelloAt(after, |log|, |messages|);
    FlushedNext(log, Sent(hello, false));
    FlushedBlock(log + [Sent(hello, false)], messages);
  }

  lemma GreetingIsOrderly(log: seq<Entry>)
    requires Greeting(log)
    ensures Orderly(log)
  {
    hide Greeting;
  }

  lemma SplitBuffer(messages: seq<Outgoing>, k: nat)
    requires NoHellos(messages) && k <= |messages|
    ensures NoHellos(messages[..k]) && NoHellos(messages[k..]) && messages == messages[..k] + messages[k..]
  {
  }

  lemma GreetedFits(capacity: nat, s: State, hello: Outgoing, writes: nat)
    requires Fits(capacity, s) && s.authenticated && !s.helloSent && hello.isHello
    ensures Fits(capacity, Greeted(s, hello, writes))
  {
    hide Flushed, AllFlushed, Greeting, AsBuffered, Orderly, NoHellos, NoneSent;
    var k := if writes < |s.outbound| then writes else |s.outbound|;
    SplitBuffer(s.outbound, k);
    HelloGreets(s.log, hello, s.outbound[..k]);
    GreetingIsOrderly(Greeted(s, hello, writes).log);
  }

  lemma ConnectFits(capacity: nat, s: State)
    requires Fits(capacity, s)
    ensures Fits(capacity, State(true, false, false, s.outbound, [], s.past + [s.log], s.taken))
  {
    AllFlushedNext(s.past, s.log);
    NothingIsOrderly();
    hide Flushed, AllFlushed, Orderly, Greeting, NoHellos;
  }

  lemma NothingIsOrderly()
    ensures Orderly([]) && NoneSent([]) && Flushed([]) == []
  {
  }

  lemma BufferFits(capacity: nat, s: State, m: Outgoing)
    requires Fits(capacity, s) && m.encodable && !m.isHello && |s.outbound| < capacity
    ensures Fits(capacity, s.(outbound := s.outbound + [m], taken := s.taken + [m]))
  {
    hide Flushed, AllFlushed, Greeting, Orderly, NoneSent;
  }

  lemma DropFits(capacity: nat, s: State)
    requires Fits(capacity, s)
    ensures Fits(capacity, Dropped(s))
  {
    hide Flushed, AllFlushed, Greeting, Orderly, NoneSent, NoHellos;
  }

  lemma {:induction false} StepFits(capacity: nat, s: State, op: Operation)
    requires Fits(capacity, s)
    ensures Fits(capacity, Step(capacity, s, op))
  {
    HelloAfterAcceptance(capacity, s);
    hide Fits, Greeted, Dropped;
    match op {
      case Connect(reached) => ConnectFits(capacity, s);
      case SendAuthenticationResponse(wellFormed, written) =>
        if s.connected && !s.authenticated {
          HandshakeFits(capacity, s, AuthResponse);
        }
      case ReceiveAuthentication(frame) =>
        DropFits(capacity, s);
        if s.connected && !s.authenticated {
          HandshakeFits(capacity, s, Accepted);
        }
      case Buffer(m) =>
        if m.encodable && !m.isHello && |s.outbound| < capacity {
          BufferFits(capacity, s, m);
        }
      case Send(m, writes) =>
        DropFits(capacity, s);
        if Refusal(s, m).None? && m.isHello && writes > 0 {
          GreetedFits(capacity, s, m, writes - 1);
        } else if Refusal(s, m).None? && !m.isHello {
          SendFits(capacity, s, m);
        }
      case Receive(_) => DropFits(capacity, s);
      case Close => DropFits(capacity, s);
    }
  }

  lemma HelloAfterAcceptance(capacity: nat, s: State)
    requires Fits(capacity, s)
    ensures (s.authenticated ==> s.connected) && (s.helloSent ==> s.authenticated)
  {
  }

  lemma {:induction false} RunFits(capacity: nat, operations: seq<Operation>)
    ensures Fits(capacity, Run(capacity, operations))
  {
    hide Fits, Step;
    if operations == [] {
      StartFits(capacity);
    } else {
      RunFits(capacity, operations[..|operations| - 1]);
      StepFits(capacity, Run(capacity, operations[..|operations| - 1]), operations[|operations| - 1]);
    }
  }

  lemma StartFits(capacity: nat)
    ensures Fits(capacity, INITIAL)
  {
  }

  // ---------- What every run guarantees ----------

  lemma OrderlyHello(log: seq<Entry>, hello: nat, other: nat)
    requires Orderly(log) && hello < |log| && log[hello].Sent? && log[hello].message.isHello
    requires other < |log| && log[other].Sent? && other != hello
    ensures hello < other && !log[other].message.isHello
    ensures exists k :: 0 <= k < hello && log[k] == Accepted
  {
    var h: nat, k: nat :| HelloAt(log, h, k);
    assert forall i :: 0 <= i < h ==> log[..h][i] == log[i];
    assert hello == h;
    var a :| 0 <= a < h && log[..h][a] == Accepted;
    assert log[a] == Accepted;
  }

  /**
   On every connection of every run: a hello is the only one, nothing was sent before it, and the server's
   acceptance came before it.
   */
  lemma {:induction false} HelloIsFirstAndUnique(capacity: nat, operations: seq<Operation>, c: nat, hello: nat, other: nat)
    requires c < |Connections(Run(capacity, operations))|
    requires var log := Connections(Run(capacity, operations))[c];
      && hello < |log| && log[hello].Sent? && log[hello].message.isHello
      && other < |log| && log[other].Sent? && other != hello
    ensures var log := Connections(Run(capacity, operations))[c];
      && hello < other && !log[other].message.isHello
      && exists k :: 0 <= k < hello && log[k] == Accepted
  {
    RunFits(capacity, operations);
    hide Run;
    OrderlyHello(Connections(Run(capacity, operations))[c], hello, other);
  }

  /** Whatever a connection sent at all, it sent behind a hello; and what came from the buffer came right behind it. */
  lemma {:induction false} NothingIsSentBeforeTheHello(capacity: nat, operations: seq<Operation>, c: nat)
    requires c < |Connections(Run(capacity, operations))|
    ensures var log := Connections(Run(capacity, operations))[c];
      NoneSent(log) || exists h: nat ::
        && h + 1 + |Flushed(log)| <= |log|
        && NoneSent(log[..h]) && Accepted in log[..h] && log[h].Sent? && log[h].message.isHello
        && log[h + 1..h + 1 + |Flushed(log)|] == AsBuffered(Flushed(log))
  {
    RunFits(capacity, operations);
    hide Run;
    var log := Connections(Run(capacity, operations))[c];
    assert Orderly(log);
    if !NoneSent(log) {
      var h: nat, k: nat :| HelloAt(log, h, k);
      FlushedIsTheBlock(log, h, k);
    }
  }

  /**
   No buffered message is lost, repeated or overtaken: whatever breaks and reconnects, the messages ever accepted
   are those the connections wrote from the buffer, connection by connection, followed by those still in it.
   */
  lemma {:induction false} BufferIsWrittenOnceInOrder(capacity: nat, operations: seq<Operation>)
    ensures var s := Run(capacity, operations);
      s.taken == AllFlushed(Connections(s)) + s.outbound && |s.outbound| <= capacity
  {
    RunFits(capacity, operations);
    hide Run;
    AllFlushedNext(Run(capacity, operations).past, Run(capacity, operations).log);
  }

  // ---------- The object ----------

  function Least(a: nat, b: nat): nat { if a < b then a else b }

  /** `later` is `log` with the first k of the messages written from the buffer behind it. */
  ghost predicate WroteBuffered(log: seq<Entry>, later: seq<Entry>, messages: seq<Outgoing>, k: nat) {
    && k <= |messages| && |later| == |log| + k && later[..|log|] == log
    && forall i :: 0 <= i < k ==> later[|log| + i] == Entry.Sent(messages[i], true)
  }

  lemma BufferedIsWritten(log: seq<Entry>, messages: seq<Outgoing>, k: nat)
    requires k <= |messages|
    ensures WroteBuffered(log, log + AsBuffered(messages[..k]), messages, k)
  {
  }

  lemma FlushStep(before: seq<Outgoing>, k: nat)
    requires k < |before|
    ensures before[k..] != [] && before[k..][0] == before[k] && before[k..][1..] == before[k + 1..]
    ensures AsBuffered(before[..k + 1]) == AsBuffered(before[..k]) + [Sent(before[k], true)]
  {
  }

  lemma FlushStart(before: seq<Outgoing>, log: seq<Entry>)
    ensures before[0..] == before && before[..|before|] == before && log + AsBuffered(before[..0]) == log
  {
  }

  lemma NothingWritten(log: seq<Entry>, messages: seq<Outgoing>)
    ensures WroteBuffered(log, log, messages, 0)
  {
  }

  /** A message goes out if it can; a hello is followed by as much of the buffer as can be written, and that leaves it. */
  ghost predicate WroteMessage(
    m: Outgoing, writes: nat, log: seq<Entry>, outbound: seq<Outgoing>, laterLog: seq<Entry>, laterOutbound: seq<Outgoing>)
  {
    if !m.encodable || writes == 0 then laterLog == log && laterOutbound == outbound
    else
      var k := if m.isHello then Least(writes - 1, |outbound|) else 0;
      laterOutbound == outbound[k..] && WroteBuffered(log + [Entry.Sent(m, false)], laterLog, outbound, k)
  }

  class WebSocketTransport {
    const capacity: nat
    var socket: bool
    var state: ConnectionState
    var outbound: seq<Outgoing>
    var authenticated: bool
    var helloSent: bool
    ghost var log: seq<Entry>
    ghost var past: seq<seq<Entry>>
    ghost var taken: seq<Outgoing>

    ghost function View(): State
      reads this
    {
      State(socket, authenticated, helloSent, outbound, log, past, taken)
    }

    ghost predicate Valid()
      reads this
    {
      state == (if socket then Connected else Disconnected) && Fits(capacity, View())
    }

    constructor (capacity: nat)
      ensures Valid() && View() == INITIAL && this.capacity == capacity
    {
      this.capacity, socket, state, outbound, authenticated, helloSent := capacity, false, Disconnected, [], false, false;
      log, past, taken := [], [], [];
    }

    /** `reached` says whether the WebSocket handshake succeeds in time. */
    method Connect(reached: bool) returns (r: Result<(), TransportError>)
      requires Valid()
      modifies this`socket, this`state, this`authenticated, this`helloSent, this`log, this`past
      ensures Valid() && View() == Step(capacity, old(View()), Operation.Connect(reached))
      ensures r == if old(socket) then Err(AlreadyConnected) else if reached then Ok(()) else Err(ConnectFailed)
      ensures r.Ok? ==> socket && !authenticated && !helloSent && log == [] && past == old(past) + [old(log)]
      ensures r.Err? ==> View() == old(View())
    {
      hide Fits;
      StepFits(capacity, View(), Operation.Connect(reached));
      if socket {
        return Err(AlreadyConnected);
      }
      state := Connecting;
      if !reached {
        state := Disconnected;
        return Err(ConnectFailed);
      }
      socket, authenticated, helloSent, state := true, false, false, Connected;
      past, log := past + [log], [];
      return Ok(());
    }

    method Disconnect()
      modifies this`socket, this`state, this`authenticated, this`helloSent
      ensures View() == Dropped(old(View())) && state == Disconnected
    {
      socket, authenticated, helloSent, state := false, false, false, Disconnected;
    }

    lemma HelloNeedsAcceptance()
      requires Valid()
      ensures (authenticated ==> socket) && (helloSent ==> authenticated)
    {
    }

    method SendAuthenticationResponse(wellFormed: bool, written: bool) returns (r: Result<(), TransportError>)
      requires Valid()
      modifies this`log
      ensures Valid() && View() == Step(capacity, old(View()), Operation.SendAuthenticationResponse(wellFormed, written))
      ensures r == if !socket then Err(NotConnected)
        else if authenticated || !wellFormed then Err(UnexpectedAuthenticationMessage)
        else if !written then Err(Broken) else Ok(())
      ensures log == if r.Ok? then old(log) + [AuthResponse] else old(log)
    {
      HelloNeedsAcceptance();
      hide Fits;
      StepFits(capacity, View(), Operation.SendAuthenticationResponse(wellFormed, written));
      if state != Connected {
        return Err(NotConnected);
      }
      if authenticated || helloSent || !wellFormed {
        return Err(UnexpectedAuthenticationMessage);
      }
      if !written {
        return Err(Broken);
      }
      log := log + [AuthResponse];
      return Ok(());
    }

    /** Only an acceptance opens the connection for messages. */
    method ReceiveAuthentication(frame: AuthFrame) returns (r: Result<AuthFrame, TransportError>)
      requires Valid()
      modifies this`socket, this`state, this`authenticated, this`helloSent, this`log
      ensures Valid() && View() == Step(capacity, old(View()), Operation.ReceiveAuthentication(frame))
      ensures r == if !old(socket) || old(authenticated) then Err(UnexpectedAuthenticationMessage)
        else match frame
             case Challenge => Ok(Challenge)
             case Acceptance => Ok(Acceptance)
             case Rejection => Err(AuthenticationRejected)
             case Unreadable => Err(UnexpectedAuthenticationMessage)
             case Lost => Err(Broken)
      ensures authenticated <==> old(authenticated) || (old(socket) && frame == Acceptance)
      ensures socket <==> old(socket) && (old(authenticated) || frame != Lost)
      ensures helloSent == old(helloSent)
      ensures log == if old(socket) && !old(authenticated) && frame == Acceptance then old(log) + [Accepted] else old(log)
    {
      HelloNeedsAcceptance();
      hide Fits;
      StepFits(capacity, View(), Operation.ReceiveAuthentication(frame));
      if state != Connected || authenticated || helloSent {
        return Err(UnexpectedAuthenticationMessage);
      }
      match frame {
        case Challenge => r := Ok(Challenge);
        case Acceptance =>
          authenticated, log := true, log + [Accepted];
          r := Ok(Acceptance);
        case Rejection => r := Err(AuthenticationRejected);
        case Unreadable => r := Err(UnexpectedAuthenticationMessage);
        case Lost =>
          Disconnect();
          r := Err(Broken);
      }
    }

    /** Keeps a message for the next connection's hello. */
    method Buffer(m: Outgoing) returns (r: Result<(), TransportError>)
      requires Valid()
      modifies this`outbound, this`taken
      ensures Valid() && View() == Step(capacity, old(View()), Operation.Buffer(m))
      ensures r == if !m.encodable then Err(ProtocolEncoding) else if m.isHello then Err(HelloCannotBeBuffered)
        else if |old(outbound)| >= capacity then Err(OutboundBufferFull) else Ok(())
      ensures outbound == if r.Ok? then old(outbound) + [m] else old(outbound)
    {
      hide Fits;
      StepFits(capacity, View(), Operation.Buffer(m));
      if !m.encodable {
        return Err(ProtocolEncoding);
      }
      if m.isHello {
        return Err(HelloCannotBeBuffered);
      }
      if |outbound| >= capacity {
        return Err(OutboundBufferFull);
      }
      outbound, taken := outbound + [m], taken + [m];
      return Ok(());
    }

    /** One frame; `writable` says whether the socket takes it. */
    method SendEncoded(m: Outgoing, writable: bool, ghost buffered: bool) returns (r: Result<(), TransportError>)
      modifies this`log
      ensures r == if !m.encodable then Err(ProtocolEncoding) else if writable then Ok(()) else Err(Broken)
      ensures log == if r.Ok? then old(log) + [Sent(m, buffered)] else old(log)
    {
      if !m.encodable {
        return Err(ProtocolEncoding);
      }
      if !writable {
        return Err(Broken);
      }
      log := log + [Sent(m, buffered)];
      return Ok(());
    }

    /** Writes the buffer in order; a message leaves it only after its write succeeded. */
    method FlushBuffer(writes: nat) returns (r: Result<(), TransportError>)
      requires NoHellos(outbound)
      modifies this`log, this`outbound
      ensures r == if |old(outbound)| <= writes then Ok(()) else Err(Broken)
      ensures (if r.Ok? then View() else Dropped(View())) == Emptied(old(View()), writes)
      ensures var k := Least(writes, |old(outbound)|);
        outbound == old(outbound)[k..] && WroteBuffered(old(log), log, old(outbound), k)
    {
      hide AsBuffered, WroteBuffered;
      ghost var before := outbound;
      BufferedIsWritten(log, before, Least(writes, |before|));
      FlushStart(before, log);
      var k := 0;
      while outbound != []
        invariant k <= |before| && k <= writes && outbound == before[k..] && NoHellos(before)
        invariant log == old(log) + AsBuffered(before[..k])
        decreases |before| - k
      {
        FlushStep(before, k);
        var sent := SendEncoded(outbound[0], k < writes, true);
        if sent.Err? {
          return sent;
        }
        outbound, k := outbound[1..], k + 1;
      }
      return Ok(());
    }

    lemma BufferHoldsNoHello()
      requires Valid()
      ensures NoHellos(outbound)
    {
    }

    /** The part of `Send` behind its checks. */
    method Write(m: Outgoing, writes: nat) returns (r: Result<(), TransportError>)
      requires NoHellos(outbound)
      modifies this`socket, this`state, this`authenticated, this`helloSent, this`log, this`outbound
      ensures View() == Written(old(View()), m, writes)
      ensures r == if !m.encodable then Err(ProtocolEncoding)
        else if writes >= 1 + (if m.isHello then |old(outbound)| else 0) then Ok(()) else Err(Broken)
      ensures r.Err? ==> !socket && !authenticated && !helloSent && state == Disconnected
      ensures r.Ok? ==> socket == old(socket) && state == old(state) && authenticated == old(authenticated)
      ensures r.Ok? ==> helloSent == (old(helloSent) || m.isHello)
      ensures WroteMessage(m, writes, old(log), old(outbound), log, outbound)
    {
      hide NoHellos, Emptied, WroteBuffered;
      NothingWritten(log + [Entry.Sent(m, false)], outbound);
      r := SendEncoded(m, writes > 0, false);
      if r.Ok? && m.isHello {
        helloSent := true;
        r := FlushBuffer(writes - 1);
      }
      if r.Err? {
        Disconnect();
      }
    }

    /**
     Sends one message. A hello is followed by everything that was buffered, in order; whatever was not
     written stays buffered for the next connection.
     */
    method Send(m: Outgoing, writes: nat) returns (r: Result<(), TransportError>)
      requires Valid()
      modifies this`socket, this`state, this`authenticated, this`helloSent, this`log, this`outbound
      ensures Valid() && View() == Step(capacity, old(View()), Operation.Send(m, writes))
      ensures r == if !old(socket) then Err(NotConnected)
        else if !old(authenticated) then Err(AuthenticationRequired)
        else if !old(helloSent) && !m.isHello then Err(HelloRequired)
        else if old(helloSent) && m.isHello then Err(HelloAlreadySent)
        else if !m.encodable then Err(ProtocolEncoding)
        else if writes >= 1 + (if m.isHello then |old(outbound)| else 0) then Ok(()) else Err(Broken)
      ensures !old(authenticated) || m.isHello == old(helloSent) ==> View() == old(View())
      ensures old(authenticated) && m.isHello != old(helloSent) ==>
        && WroteMessage(m, writes, old(log), old(outbound), log, outbound)
        && (if r.Ok? then socket && authenticated && helloSent else !socket && !authenticated && !helloSent)
    {
      BufferHoldsNoHello();
      HelloNeedsAcceptance();
      hide Fits, NoHellos, Written, WroteMessage;
      StepFits(capacity, View(), Operation.Send(m, writes));
      if state != Connected {
        return Err(NotConnected);
      }
      if !authenticated {
        return Err(AuthenticationRequired);
      }
      if !helloSent && !m.isHello {
        return Err(HelloRequired);
      }
      if helloSent && m.isHello {
        return Err(HelloAlreadySent);
      }
      r := Write(m, writes);
    }

    /** Waits for a server message; a lost or unreadable one ends the connection. */
    method Receive(incoming: Incoming) returns (r: Result<nat, TransportError>)
      requires Valid()
      modifies this`socket, this`state, this`authenticated, this`helloSent
      ensures Valid() && View() == Step(capacity, old(View()), Operation.Receive(incoming))
      ensures r == if !old(socket) then Err(NotConnected)
        else if !old(authenticated) then Err(AuthenticationRequired)
        else if !old(helloSent) then Err(HelloRequired)
        else match incoming
             case Decoded(body) => Ok(body)
             case Undecodable => Err(Malformed)
             case NoFrame => Err(Broken)
      ensures if old(helloSent) && !incoming.Decoded? then !socket && !authenticated && !helloSent else View() == old(View())
    {
      HelloNeedsAcceptance();
      hide Fits;
      StepFits(capacity, View(), Operation.Receive(incoming));
      if state != Connected {
        return Err(NotConnected);
      }
      if !authenticated {
        return Err(AuthenticationRequired);
      }
      if !helloSent {
        return Err(HelloRequired);
      }
      match incoming {
        case Decoded(body) => r := Ok(body);
        case Undecodable =>
          Disconnect();
          r := Err(Malformed);
        case NoFrame =>
          Disconnect();
          r := Err(Broken);
      }
    }

    /** Closing ends the connection whatever the peer does. */
    method Close(answered: bool) returns (r: Result<(), TransportError>)
      requires Valid()
      modifies this`socket, this`state, this`authenticated, this`helloSent
      ensures Valid() && View() == Step(capacity, old(View()), Operation.Close)
      ensures !socket && !authenticated && !helloSent && (r == if !old(socket) || answered then Ok(()) else Err(Broken))
    {
      hide Fits;
      StepFits(capacity, View(), Operation.Close);
      if !socket {
        Disconnect();
        return Ok(());
      }
      socket, state := false, Closing;
      Disconnect();
      r := if answered then Ok(()) else Err(Broken);
    }
  }
}
