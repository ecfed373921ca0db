/**
 * The select() loop of the SIP daemon: `master`, `reads` and `max_socket` over passes, with accept,
 * recv, close and recvmsg. What the kernel, the parser and the sinks answer is part of the input.
 */
module SelectLoop {

  /** What happens to a ready TCP client: recv gives nothing, or a packet that is then logged and answered. */
  datatype TcpResult = Empty | Packet(destinationKnown: bool, logged: bool, replied: bool)

  datatype UdpResult = Datagram(senderKnown: bool, logged: bool, replied: bool)

  /** `wish` is the descriptor accept would like to return; `peerKnown` is the getnameinfo that follows. */
  datatype Kernel = Kernel(wish: int, peerKnown: bool, tcp: int -> TcpResult, udp: int -> UdpResult)

  datatype Action = Accept(fd: int) | Recv(fd: int) | Close(fd: int) | RecvMsg(at: int)

  /** `Returned`: the daemon gave up on a getnameinfo failure; `Aborted`: an assertion failed. */
  datatype Outcome = Completed | Returned | Aborted

  datatype Sockets = Sockets(udp: int, tcp: int, master: set<int>, open: set<int>, maxSocket: int)

  /** Both listeners are watched, whatever is watched is open and within the bound given to select. */
  predicate Valid(s: Sockets) {
    s.udp != s.tcp && s.udp in s.master && s.tcp in s.master && s.master <= s.open && s.udp >= 1 && s.tcp >= 1 &&
    forall fd :: fd in s.master ==> fd <= s.maxSocket
  }

  /** accept never returns a descriptor that is open; anything below zero is its failure. */
  predicate Accepts(open: set<int>, k: Kernel) {
    k.wish >= 0 && k.wish !in open
  }

  function Effect(fds: set<int>, a: Action): set<int> {
    if a.Accept? then fds + {a.fd} else if a.Close? then fds - {a.fd} else fds
  }

  /** The descriptors in a set after some actions. */
  function Replay(fds: set<int>, trace: seq<Action>): set<int> {
    if trace == [] then fds else Effect(Replay(fds, trace[..|trace| - 1]), trace[|trace| - 1])
  }

  lemma ReplayAppend(fds: set<int>, trace: seq<Action>, a: Action)
    ensures Replay(fds, trace + [a]) == Effect(Replay(fds, trace), a)
  {
    assert (trace + [a])[..|trace|] == trace;
  }

  /** Membership after some actions, as far as it does not depend on their order. */
  lemma {:induction false} ReplayMeans(fds: set<int>, trace: seq<Action>, x: int)
    ensures Close(x) in trace && Accept(x) !in trace ==> x !in Replay(fds, trace)
    ensures Close(x) !in trace ==> (x in Replay(fds, trace) <==> x in fds || Accept(x) in trace)
  {
    if trace != [] {
      var before, last := trace[..|trace| - 1], trace[|trace| - 1];
      ReplayMeans(fds, before, x);
      assert forall a :: a in trace <==> a in before || a == last;
    }
  }

  /** recv is only called on a reported client, once, and not after it was closed or its number reused. */
  predicate SafeRecvs(s: Sockets, ready: set<int>, trace: seq<Action>) {
    && (forall k :: 0 <= k < |trace| && trace[k].Recv? ==>
          trace[k].fd in ready && trace[k].fd != s.udp && trace[k].fd != s.tcp)
    && (forall j, k :: 0 <= j < k < |trace| && trace[k].Recv? ==>
          trace[j] != Recv(trace[k].fd) && trace[j] != Close(trace[k].fd) && trace[j] != Accept(trace[k].fd))
  }

  /** Only a client that has just been read is closed; only the TCP listener accepts. */
  predicate SafeCloses(trace: seq<Action>) {
    forall k :: 0 <= k < |trace| && trace[k].Close? ==> k > 0 && trace[k - 1] == Recv(trace[k].fd)
  }

  /** A ready client whose turn ends with `continue` before the datagram is read. */
  predicate Skips(s: Sockets, k: Kernel, i: int) {
    i != s.udp && i != s.tcp && (k.tcp(i).Empty? || !k.tcp(i).logged || !k.tcp(i).replied)
  }

  /** recvmsg is called at most once per ready descriptor, only if UDP is ready, and after that one was served. */
  predicate SafeRecvMsgs(s: Sockets, ready: set<int>, trace: seq<Action>) {
    && (forall k :: 0 <= k < |trace| && trace[k].RecvMsg? ==> s.udp in ready && trace[k].at in ready)
    && (forall j, k :: 0 <= j < k < |trace| && trace[k].RecvMsg? ==> trace[j] != trace[k])
    && (forall k :: 0 <= k < |trace| && trace[k].RecvMsg? && trace[k].at != s.udp ==>
          k > 0 && if trace[k].at == s.tcp then trace[k - 1].Accept? else trace[k - 1] == Recv(trace[k].at))
  }

  /** What makes the daemon give up: an unknown peer or sender, or a packet without a destination. */
  predicate Fatal(k: Kernel, a: Action) {
    if a.Accept? then !k.peerKnown
    else if a.RecvMsg? then !k.udp(a.at).senderKnown
    else a.Recv? && k.tcp(a.fd).Packet? && !k.tcp(a.fd).destinationKnown
  }

  predicate NothingFatal(k: Kernel, trace: seq<Action>) {
    forall a :: a in trace ==> !Fatal(k, a)
  }

  /** An action of a scan that has reached descriptor i: it does not concern what is still to be visited. */
  predicate BehindScan(s: Sockets, ready: set<int>, i: int, a: Action) {
    if a.Accept? then s.tcp < i && (a.fd !in ready || a.fd < s.tcp)
    else if a.RecvMsg? then a.at < i
    else 1 <= a.fd < i
  }

  /** The state of a scan that has reached descriptor i. */
  predicate Scanning(s: Sockets, ready: set<int>, i: int, cur: Sockets, trace: seq<Action>) {
    && Valid(cur) && cur.udp == s.udp && cur.tcp == s.tcp && s.maxSocket <= cur.maxSocket
    && cur.master == Replay(s.master, trace) && cur.open == Replay(s.open, trace)
    && SafeRecvs(s, ready, trace) && SafeCloses(trace) && SafeRecvMsgs(s, ready, trace)
    && AllBehind(s, ready, i, trace) && StillOpen(ready, i, cur)
  }

  predicate AllBehind(s: Sockets, ready: set<int>, i: int, trace: seq<Action>) {
    forall j :: 0 <= j < |trace| ==> BehindScan(s, ready, i, trace[j])
  }

  predicate StillOpen(ready: set<int>, i: int, cur: Sockets) {
    forall fd :: fd in ready && fd >= i ==> fd in cur.open
  }

  /** A reported client. */
  predicate IsClient(s: Sockets, ready: set<int>, fd: int) {
    fd in ready && fd != s.udp && fd != s.tcp
  }

  /** What a completed visit of descriptor fd leaves in the trace. */
  predicate Visited(s: Sockets, ready: set<int>, k: Kernel, fd: int, trace: seq<Action>) {
    && (IsClient(s, ready, fd) ==> Recv(fd) in trace && (Close(fd) in trace <==> k.tcp(fd).Empty?))
    && (RecvMsg(fd) in trace <==> fd in ready && s.udp in ready && HasDatagramTurn(s, ready, k, fd, trace))
    && (fd == s.tcp ==> (Accept(k.wish) in trace <==> s.tcp in ready && CanAccept(s, ready, k)))
  }

  /** In a completed pass, the turns of these descriptors get as far as the datagram. */
  predicate HasDatagramTurn(s: Sockets, ready: set<int>, k: Kernel, fd: int, trace: seq<Action>) {
    fd == s.udp || (fd == s.tcp && Accept(k.wish) in trace) ||
    (fd != s.tcp && k.tcp(fd).Packet? && k.tcp(fd).logged && k.tcp(fd).replied)
  }

  /** accept succeeds: its number is not open, or it was that of an empty client which the scan has closed before. */
  predicate CanAccept(s: Sockets, ready: set<int>, k: Kernel) {
    k.wish >= 0 && (k.wish !in s.open || (1 <= k.wish < s.tcp && IsClient(s, ready, k.wish) && k.tcp(k.wish).Empty?))
  }

  /** What a visit does in front of the datagram. */
  function Served(s: Sockets, k: Kernel, open: set<int>, fd: int): seq<Action> {
    if fd == s.udp then []
    else if fd == s.tcp then if k.wish < 0 || k.wish in open then [] else [Accept(k.wish)]
    else if k.tcp(fd).Empty? then [Recv(fd), Close(fd)]
    else [Recv(fd)]
  }

  /** It goes on to the datagram. */
  predicate GoesOn(s: Sockets, k: Kernel, open: set<int>, fd: int) {
    if fd == s.udp then true
    else if fd == s.tcp then k.wish >= 0 && k.wish !in open && k.peerKnown
    else k.tcp(fd).Packet? && k.tcp(fd).destinationKnown && k.tcp(fd).logged && k.tcp(fd).replied
  }

  /** Everything a visit does, action by action. */
  function Acts(s: Sockets, ready: set<int>, k: Kernel, open: set<int>, fd: int): seq<Action> {
    if fd !in ready then []
    else Served(s, k, open, fd) + if s.udp in ready && GoesOn(s, k, open, fd) then [RecvMsg(fd)] else []
  }

  /** How a visit ends. */
  function EndOf(s: Sockets, ready: set<int>, k: Kernel, open: set<int>, fd: int): Outcome {
    if fd !in ready then Completed
    else if IsClient(s, ready, fd) && k.tcp(fd).Packet? && !k.tcp(fd).destinationKnown then Aborted
    else if fd == s.tcp && k.wish >= 0 && k.wish !in open && !k.peerKnown then Returned
    else if GoesOn(s, k, open, fd) && s.udp in ready && !k.udp(fd).senderKnown then Returned
    else Completed
  }

  predicate NoneSkipped(s: Sockets, k: Kernel, trace: seq<Action>) {
    forall a :: a in trace && a.RecvMsg? ==> !Skips(s, k, a.at)
  }

  // What each safety predicate asks of one more action.

  lemma MoreRecvs(s: Sockets, ready: set<int>, trace: seq<Action>, a: Action)
    requires SafeRecvs(s, ready, trace)
    requires a.Recv? ==> a.fd in ready && a.fd != s.udp && a.fd != s.tcp &&
                         forall j :: 0 <= j < |trace| ==>
                           trace[j] != Recv(a.fd) && trace[j] != Close(a.fd) && trace[j] != Accept(a.fd)
    ensures SafeRecvs(s, ready, trace + [a])
  {
  }

  lemma MoreCloses(trace: seq<Action>, a: Action)
    requires SafeCloses(trace) && (a.Close? ==> trace != [] && trace[|trace| - 1] == Recv(a.fd))
    ensures SafeCloses(trace + [a])
  {
  }

  lemma MoreRecvMsgs(s: Sockets, ready: set<int>, trace: seq<Action>, a: Action)
    requires SafeRecvMsgs(s, ready, trace)
    requires a.RecvMsg? ==> s.udp in ready && a.at in ready && a !in trace
    requires a.RecvMsg? && a.at != s.udp ==>
               trace != [] && if a.at == s.tcp then trace[|trace| - 1].Accept? else trace[|trace| - 1] == Recv(a.at)
    ensures SafeRecvMsgs(s, ready, trace + [a])
  {
  }

  lemma MoreReplay(s: Sockets, cur: Sockets, trace: seq<Action>, a: Action)
    requires cur.master == Replay(s.master, trace) && cur.open == Replay(s.open, trace)
    ensures Effect(cur.master, a) == Replay(s.master, trace + [a])
    ensures Effect(cur.open, a) == Replay(s.open, trace + [a])
  {
    ReplayAppend(s.master, trace, a);
    ReplayAppend(s.open, trace, a);
  }

  lemma MoreBehind(s: Sockets, ready: set<int>, i: int, trace: seq<Action>, a: Action)
    requires AllBehind(s, ready, i, trace) && BehindScan(s, ready, i, a)
    ensures AllBehind(s, ready, i, trace + [a])
  {
  }

  /** One more action, at any point of the scan. */
  lemma ScanAct(s: Sockets, ready: set<int>, i: int, cur: Sockets, cur': Sockets, trace: seq<Action>, a: Action)
    requires Scanning(s, ready, i, cur, trace) && BehindScan(s, ready, i, a)
    requires SafeRecvs(s, ready, trace + [a]) && SafeCloses(trace + [a]) && SafeRecvMsgs(s, ready, trace + [a])
    requires Valid(cur') && cur'.udp == cur.udp && cur'.tcp == cur.tcp && cur.maxSocket <= cur'.maxSocket
    requires cur'.master == Effect(cur.master, a) && cur'.open == Effect(cur.open, a) && StillOpen(ready, i, cur')
    ensures Scanning(s, ready, i, cur', trace + [a])
  {
    MoreReplay(s, cur, trace, a);
    MoreBehind(s, ready, i, trace, a);
  }

  lemma ScanAccept(s: Sockets, ready: set<int>, cur: Sockets, cur': Sockets, trace: seq<Action>, fd: int)
    requires Scanning(s, ready, s.tcp, cur, trace) && fd >= 0 && fd !in cur.open
    requires cur' == cur.(master := cur.master + {fd}, open := cur.open + {fd},
                          maxSocket := if fd > cur.maxSocket then fd else cur.maxSocket)
    ensures Scanning(s, ready, s.tcp + 1, cur', trace + [Accept(fd)])
  {
    MoreRecvs(s, ready, trace, Accept(fd));
    MoreCloses(trace, Accept(fd));
    MoreRecvMsgs(s, ready, trace, Accept(fd));
    NotYetRead(s, ready, cur, trace, s.tcp);
    ScanAct(s, ready, s.tcp + 1, cur, cur', trace, Accept(fd));
  }

  lemma ScanRecv(s: Sockets, ready: set<int>, cur: Sockets, trace: seq<Action>, fd: int)
    requires Scanning(s, ready, fd, cur, trace) && fd >= 1 && fd in ready && fd != s.udp && fd != s.tcp
    ensures Scanning(s, ready, fd + 1, cur, trace + [Recv(fd)])
    ensures RecvMsg(fd) !in trace + [Recv(fd)]
  {
    NotYetRead(s, ready, cur, trace, fd);
    forall j | 0 <= j < |trace|
      ensures trace[j] != Recv(fd) && trace[j] != Close(fd) && trace[j] != Accept(fd)
    {
      assert BehindScan(s, ready, fd, trace[j]);
    }
    MoreRecvs(s, ready, trace, Recv(fd));
    MoreCloses(trace, Recv(fd));
    MoreRecvMsgs(s, ready, trace, Recv(fd));
    ScanAct(s, ready, fd + 1, cur, cur, trace, Recv(fd));
  }

  lemma ScanClose(s: Sockets, ready: set<int>, cur: Sockets, cur': Sockets, trace: seq<Action>, fd: int)
    requires Scanning(s, ready, fd + 1, cur, trace) && fd >= 1 && fd != s.udp && fd != s.tcp
    requires trace != [] && trace[|trace| - 1] == Recv(fd)
    requires cur' == cur.(master := cur.master - {fd}, open := cur.open - {fd})
    ensures Scanning(s, ready, fd + 1, cur', trace + [Close(fd)])
  {
    MoreRecvs(s, ready, trace, Close(fd));
    MoreCloses(trace, Close(fd));
    MoreRecvMsgs(s, ready, trace, Close(fd));
    ScanAct(s, ready, fd + 1, cur, cur', trace, Close(fd));
  }

  lemma ScanRecvMsg(s: Sockets, ready: set<int>, cur: Sockets, trace: seq<Action>, fd: int)
    requires Scanning(s, ready, fd + 1, cur, trace) && s.udp in ready && fd in ready && RecvMsg(fd) !in trace
    requires fd != s.udp ==>
               trace != [] && if fd == s.tcp then trace[|trace| - 1].Accept? else trace[|trace| - 1] == Recv(fd)
    ensures Scanning(s, ready, fd + 1, cur, trace + [RecvMsg(fd)])
  {
    MoreRecvs(s, ready, trace, RecvMsg(fd));
    MoreCloses(trace, RecvMsg(fd));
    MoreRecvMsgs(s, ready, trace, RecvMsg(fd));
    ScanAct(s, ready, fd + 1, cur, cur, trace, RecvMsg(fd));
  }

  lemma NotYetRead(s: Sockets, ready: set<int>, cur: Sockets, trace: seq<Action>, fd: int)
    requires Scanning(s, ready, fd, cur, trace)
    ensures RecvMsg(fd) !in trace
    ensures Scanning(s, ready, fd + 1, cur, trace)
  {
    forall j | 0 <= j < |trace|
      ensures BehindScan(s, ready, fd + 1, trace[j]) && trace[j] != RecvMsg(fd)
    {
      assert BehindScan(s, ready, fd, trace[j]);
    }
  }

  /** Common to the three parts of a visit: the scan goes on at fd + 1, and only the last action can be fatal. */
  predicate Turn(s: Sockets, ready: set<int>, k: Kernel, fd: int, cur: Sockets, trace: seq<Action>, outcome: Outcome) {
    && Scanning(s, ready, fd + 1, cur, trace) && NoneSkipped(s, k, trace)
    && (outcome.Completed? ==> NothingFatal(k, trace))
    && (!outcome.Completed? ==> trace != [] && Fatal(k, trace[|trace| - 1]))
  }

  /** The listener is ready: accept, watch the new descriptor, ask for the peer's name. */
  method AcceptClient(s: Sockets, ready: set<int>, k: Kernel, cur: Sockets, trace: seq<Action>)
    returns (cur': Sockets, trace': seq<Action>, outcome: Outcome)
    requires Scanning(s, ready, s.tcp, cur, trace) && NoneSkipped(s, k, trace) && NothingFatal(k, trace)
    requires Accepts(cur.open, k)
    ensures Turn(s, ready, k, s.tcp, cur', trace', outcome) && trace' == trace + [Accept(k.wish)]
    ensures k.wish in cur'.master && k.wish in cur'.open
    ensures outcome == if k.peerKnown then Completed else Returned
    ensures RecvMsg(s.tcp) !in trace'
  {
    NotYetRead(s, ready, cur, trace, s.tcp);
    cur' := cur.(master := cur.master + {k.wish}, open := cur.open + {k.wish},
                 maxSocket := if k.wish > cur.maxSocket then k.wish else cur.maxSocket);
    ScanAccept(s, ready, cur, cur', trace, k.wish);
    trace' := trace + [Accept(k.wish)];
    outcome := if k.peerKnown then Completed else Returned;
  }

  /** A client is ready: recv, then close it, give up, or go on. */
  method ReadClient(s: Sockets, ready: set<int>, k: Kernel, cur: Sockets, trace: seq<Action>, fd: int)
    returns (cur': Sockets, trace': seq<Action>, outcome: Outcome)
    requires Scanning(s, ready, fd, cur, trace) && NoneSkipped(s, k, trace) && NothingFatal(k, trace)
    requires fd >= 1 && fd in ready && fd != s.udp && fd != s.tcp
    ensures Turn(s, ready, k, fd, cur', trace', outcome) && trace + [Recv(fd)] <= trace'
    ensures cur'.maxSocket == cur.maxSocket
    ensures trace' == trace + if k.tcp(fd).Empty? then [Recv(fd), Close(fd)] else [Recv(fd)]
    ensures k.tcp(fd).Empty? ==> cur'.master == cur.master - {fd} && cur'.open == cur.open - {fd}
    ensures k.tcp(fd).Packet? ==> cur' == cur
    ensures outcome == if k.tcp(fd).Packet? && !k.tcp(fd).destinationKnown then Aborted else Completed
    ensures RecvMsg(fd) !in trace' && Recv(fd) in trace'
  {
    cur', outcome := cur, Completed;
    ScanRecv(s, ready, cur, trace, fd);
    trace' := trace + [Recv(fd)];
    if k.tcp(fd).Empty? {
      cur' := cur.(master := cur.master - {fd}, open := cur.open - {fd});
      ScanClose(s, ready, cur, cur', trace', fd);
      trace' := trace' + [Close(fd)];
    } else if !k.tcp(fd).destinationKnown {
      outcome := Aborted;
    }
  }

  /** UDP is ready too: recvmsg, whichever descriptor is being visited. */
  method ReadDatagram(s: Sockets, ready: set<int>, k: Kernel, cur: Sockets, trace: seq<Action>, fd: int)
    returns (trace': seq<Action>, outcome: Outcome)
    requires Turn(s, ready, k, fd, cur, trace, Completed) && s.udp in ready && fd in ready
    requires RecvMsg(fd) !in trace && !Skips(s, k, fd)
    requires fd != s.udp ==>
               trace != [] && if fd == s.tcp then trace[|trace| - 1].Accept? else trace[|trace| - 1] == Recv(fd)
    ensures Turn(s, ready, k, fd, cur, trace', outcome) && trace' == trace + [RecvMsg(fd)]
    ensures outcome == if k.udp(fd).senderKnown then Completed else Returned
  {
    ScanRecvMsg(s, ready, cur, trace, fd);
    trace' := trace + [RecvMsg(fd)];
    outcome := if k.udp(fd).senderKnown then Completed else Returned;
  }

  /** A ready descriptor up to the datagram. */
  method Serve(s: Sockets, ready: set<int>, k: Kernel, cur: Sockets, trace: seq<Action>, fd: int)
    returns (cur': Sockets, trace': seq<Action>, outcome: Outcome, goesOn: bool)
    requires Scanning(s, ready, fd, cur, trace) && NoneSkipped(s, k, trace) && NothingFatal(k, trace) && fd >= 1 && fd in ready
    ensures Turn(s, ready, k, fd, cur', trace', outcome) && trace' == trace + Served(s, k, cur.open, fd)
    ensures fd != s.tcp ==> cur'.maxSocket == cur.maxSocket
    ensures goesOn == GoesOn(s, k, cur.open, fd) && (goesOn ==> outcome.Completed? && RecvMsg(fd) !in trace')
    ensures outcome.Aborted? <==> IsClient(s, ready, fd) && k.tcp(fd).Packet? && !k.tcp(fd).destinationKnown
    ensures outcome.Returned? <==> fd == s.tcp && Accepts(cur.open, k) && !k.peerKnown
  {
    cur', trace', outcome, goesOn := cur, trace, Completed, false;
    NotYetRead(s, ready, cur, trace, fd);
    if fd == s.tcp {
      if !Accepts(cur.open, k) {
        return;
      }
      cur', trace', outcome := AcceptClient(s, ready, k, cur, trace);
      goesOn := k.peerKnown;
    } else if fd != s.udp {
      cur', trace', outcome := ReadClient(s, ready, k, cur, trace, fd);
      goesOn := outcome == Completed && !Skips(s, k, fd);
    } else {
      goesOn := true;
    }
  }

  /** The body of the scan for one descriptor; the scan goes on if the outcome is Completed. */
  method Visit(s: Sockets, ready: set<int>, k: Kernel, cur: Sockets, trace: seq<Action>, fd: int)
    returns (cur': Sockets, trace': seq<Action>, outcome: Outcome)
    requires Scanning(s, ready, fd, cur, trace) && NoneSkipped(s, k, trace) && NothingFatal(k, trace) && fd >= 1
    ensures Turn(s, ready, k, fd, cur', trace', outcome)
    ensures trace' == trace + Acts(s, ready, k, cur.open, fd) && outcome == EndOf(s, ready, k, cur.open, fd)
    ensures fd != s.tcp ==> cur'.maxSocket == cur.maxSocket
  {
    if fd !in ready {
      NotYetRead(s, ready, cur, trace, fd);
      return cur, trace, Completed;
    }
    var goesOn;
    cur', trace', outcome, goesOn := Serve(s, ready, k, cur, trace, fd);
    if goesOn && s.udp in ready {
      trace', outcome := ReadDatagram(s, ready, k, cur', trace', fd);
    }
  }

  /** What the visits before this one left stays so: the actions of this one are about its own descriptor. */
  lemma VisitedStays(s: Sockets, ready: set<int>, k: Kernel, open: set<int>, fd: int, i: int, trace: seq<Action>)
    requires Visited(s, ready, k, fd, trace) && fd < i
    ensures Visited(s, ready, k, fd, trace + Acts(s, ready, k, open, i))
  {
    var acts := Acts(s, ready, k, open, i);
    assert forall a :: a in trace + acts <==> a in trace || a in acts;
    assert forall a :: a in acts ==> (a.Accept? ==> i == s.tcp) && (!a.Accept? && !a.RecvMsg? ==> a.fd == i);
  }

  /** A visit leaves its own part: the closing of an empty client, the accepted connection. */
  lemma VisitedNow(s: Sockets, ready: set<int>, k: Kernel, cur: Sockets, i: int, trace: seq<Action>)
    requires Scanning(s, ready, i, cur, trace) && EndOf(s, ready, k, cur.open, i).Completed? && i >= 1
    requires forall fd :: 1 <= fd < i ==> Visited(s, ready, k, fd, trace)
    ensures Visited(s, ready, k, i, trace + Acts(s, ready, k, cur.open, i))
  {
    var acts := Acts(s, ready, k, cur.open, i);
    assert forall a :: a in trace + acts <==> a in trace || a in acts;
    NothingAhead(s, ready, i, trace, Close(i));
    NothingAhead(s, ready, i, trace, RecvMsg(i));
    if i == s.tcp {
      NothingAhead(s, ready, i, trace, Accept(k.wish));
      ReplayMeans(s.open, trace, k.wish);
      if k.wish in s.open {
        ClosedBefore(s, ready, k, i, trace);
      }
    }
  }

  lemma NothingAhead(s: Sockets, ready: set<int>, i: int, trace: seq<Action>, a: Action)
    requires AllBehind(s, ready, i, trace) && !BehindScan(s, ready, i, a)
    ensures a !in trace
  {
  }

  /** Before the listener's turn, an open number was closed exactly if it is an empty client in front of it. */
  lemma ClosedBefore(s: Sockets, ready: set<int>, k: Kernel, i: int, trace: seq<Action>)
    requires AllBehind(s, ready, i, trace) && SafeRecvs(s, ready, trace) && SafeCloses(trace) && i == s.tcp
    requires forall fd :: 1 <= fd < i ==> Visited(s, ready, k, fd, trace)
    ensures Close(k.wish) in trace <==> 1 <= k.wish < s.tcp && IsClient(s, ready, k.wish) && k.tcp(k.wish).Empty?
  {
    if Close(k.wish) in trace {
      var j :| 0 <= j < |trace| && trace[j] == Close(k.wish);
      assert BehindScan(s, ready, i, trace[j]);
      assert trace[j - 1] == Recv(k.wish) && trace[j - 1].fd in ready;
      assert Visited(s, ready, k, k.wish, trace);
    }
    if 1 <= k.wish < s.tcp {
      assert Visited(s, ready, k, k.wish, trace);
    }
  }

  /** An action after which the scan does not go on. */
  lemma LastAct(s: Sockets, ready: set<int>, k: Kernel, open: set<int>, fd: int)
    requires s.udp != s.tcp
    ensures var acts, end := Acts(s, ready, k, open, fd), EndOf(s, ready, k, open, fd);
            && (end.Aborted? ==> acts == [Recv(fd)] && k.tcp(fd).Packet? && !k.tcp(fd).destinationKnown)
            && (end.Returned? ==>
                  && acts != []
                  && ((acts[|acts| - 1] == Accept(k.wish) && !k.peerKnown) ||
                      (acts[|acts| - 1] == RecvMsg(fd) && !k.udp(fd).senderKnown)))
  {
    var acts := Acts(s, ready, k, open, fd);
    if fd in ready && s.udp in ready && GoesOn(s, k, open, fd) {
      assert acts[|acts| - 1] == RecvMsg(fd);
    } else {
      assert acts == if fd in ready then Served(s, k, open, fd) else [];
    }
  }

  /** One round of `while (1)` after select: the scan over 1 .. max_socket, which accept can extend. */
  method Pass(s: Sockets, ready: set<int>, k: Kernel) returns (s': Sockets, outcome: Outcome, trace: seq<Action>)
    requires Valid(s) && ready <= s.master
    ensures Valid(s') && s'.udp == s.udp && s'.tcp == s.tcp && s.maxSocket <= s'.maxSocket
    ensures s'.master == Replay(s.master, trace) && s'.open == Replay(s.open, trace)
    ensures SafeRecvs(s, ready, trace) && SafeCloses(trace) && SafeRecvMsgs(s, ready, trace)
    // How it ends.
    ensures outcome.Completed? ==> NothingFatal(k, trace)
    ensures outcome.Aborted? ==>
              trace != [] &&
              var a := trace[|trace| - 1]; a.Recv? && k.tcp(a.fd).Packet? && !k.tcp(a.fd).destinationKnown
    ensures outcome.Returned? ==>
              trace != [] && var a := trace[|trace| - 1];
              (a == Accept(k.wish) && !k.peerKnown) || (a.RecvMsg? && !k.udp(a.at).senderKnown)
    // Clients: each is read, and closed exactly if it sent nothing.
    ensures outcome.Completed? ==>
              forall i :: i in ready && i >= 1 && i != s.udp && i != s.tcp ==>
                Recv(i) in trace && (Close(i) in trace <==> k.tcp(i).Empty?)
    ensures forall i :: Close(i) in trace && Accept(i) !in trace ==> i !in s'.master && i !in s'.open
    ensures forall i :: Close(i) !in trace ==>
              (i in s'.master <==> i in s.master || Accept(i) in trace) && (i in s'.open <==> i in s.open || Accept(i) in trace)
    // The listener: a connection is accepted exactly if it is ready and accept gives a number that is free by then.
    ensures outcome.Completed? ==>
              (Accept(k.wish) in trace <==>
                 s.tcp in ready && k.wish >= 0 &&
                 (k.wish !in s.open ||
                  (1 <= k.wish < s.tcp && k.wish in ready && k.wish != s.udp && k.tcp(k.wish).Empty?)))
    ensures Accept(k.wish) in trace ==> k.wish in s'.master
    // Datagrams: once for UDP, and once more for each other turn that gets as far.
    ensures outcome.Completed? ==>
              forall i :: i >= 1 ==>
                (RecvMsg(i) in trace <==>
                   i in ready && s.udp in ready &&
                   (i == s.udp || (i == s.tcp && Accept(k.wish) in trace) ||
                    (i != s.tcp && k.tcp(i).Packet? && k.tcp(i).logged && k.tcp(i).replied)))
  {
    s', trace, outcome := s, [], Completed;
    var i := 1;
    while i <= s'.maxSocket
      invariant outcome.Completed? && i >= 1 && SoFar(s, ready, k, i, s', trace)
      decreases if i <= s.tcp then 1 else 0, s'.maxSocket - i
    {
      s', trace, outcome := VisitNext(s, ready, k, s', trace, i);
      if outcome != Completed {
        ReplayAll(s, s', trace);
        return;
      }
      i := i + 1;
    }
    ReplayAll(s, s', trace);
    AllVisited(s, ready, k, s', i, trace);
  }

  /** A pass that has reached descriptor i. */
  predicate SoFar(s: Sockets, ready: set<int>, k: Kernel, i: int, cur: Sockets, trace: seq<Action>) {
    && Scanning(s, ready, i, cur, trace) && NoneSkipped(s, k, trace) && NothingFatal(k, trace)
    && (forall fd :: 1 <= fd < i ==> Visited(s, ready, k, fd, trace))
    && (Accept(k.wish) in trace ==> k.wish in cur.master)
  }

  /** One visit, and what it adds to the pass. */
  method VisitNext(s: Sockets, ready: set<int>, k: Kernel, cur: Sockets, trace: seq<Action>, i: int)
    returns (cur': Sockets, trace': seq<Action>, outcome: Outcome)
    requires i >= 1 && SoFar(s, ready, k, i, cur, trace)
    ensures outcome.Completed? ==> SoFar(s, ready, k, i + 1, cur', trace')
    ensures i != s.tcp ==> cur'.maxSocket == cur.maxSocket
    ensures Scanning(s, ready, i + 1, cur', trace') && (Accept(k.wish) in trace' ==> k.wish in cur'.master)
    ensures outcome.Aborted? ==>
              trace' != [] && var a := trace'[|trace'| - 1]; a.Recv? && k.tcp(a.fd).Packet? && !k.tcp(a.fd).destinationKnown
    ensures outcome.Returned? ==>
              trace' != [] && var a := trace'[|trace'| - 1];
              (a == Accept(k.wish) && !k.peerKnown) || (a.RecvMsg? && !k.udp(a.at).senderKnown)
  {
    cur', trace', outcome := Visit(s, ready, k, cur, trace, i);
    LastAct(s, ready, k, cur.open, i);
    AcceptedStays(s, ready, k, cur, cur', i, trace, trace');
    if outcome == Completed {
      forall fd | 1 <= fd < i
        ensures Visited(s, ready, k, fd, trace')
      {
        VisitedStays(s, ready, k, cur.open, fd, i, trace);
      }
      VisitedNow(s, ready, k, cur, i, trace);
    }
  }

  /** Whatever the scan did not reach is beyond what was watched. */
  lemma AllVisited(s: Sockets, ready: set<int>, k: Kernel, s': Sockets, i: int, trace: seq<Action>)
    requires Valid(s) && ready <= s.master && Scanning(s, ready, i, s', trace) && i > s'.maxSocket && i >= 1
    requires forall fd :: 1 <= fd < i ==> Visited(s, ready, k, fd, trace)
    ensures forall fd :: fd in ready && fd >= 1 ==> Visited(s, ready, k, fd, trace)
    ensures Visited(s, ready, k, s.tcp, trace)
    ensures forall a :: a in trace && a.RecvMsg? ==> a.at in ready && s.udp in ready
  {
  }

  lemma ReplayAll(s: Sockets, s': Sockets, trace: seq<Action>)
    requires s'.master == Replay(s.master, trace) && s'.open == Replay(s.open, trace)
    ensures forall i :: Close(i) in trace && Accept(i) !in trace ==> i !in s'.master && i !in s'.open
    ensures forall i :: Close(i) !in trace ==>
              (i in s'.master <==> i in s.master || Accept(i) in trace) && (i in s'.open <==> i in s.open || Accept(i) in trace)
  {
    forall i: int
      ensures Close(i) in trace && Accept(i) !in trace ==> i !in s'.master && i !in s'.open
      ensures Close(i) !in trace ==>
                (i in s'.master <==> i in s.master || Accept(i) in trace) && (i in s'.open <==> i in s.open || Accept(i) in trace)
    {
      ReplayMeans(s.master, trace, i);
      ReplayMeans(s.open, trace, i);
    }
  }

  /** An accepted connection is not closed in the same pass. */
  lemma AcceptedStays(
    s: Sockets, ready: set<int>, k: Kernel, cur: Sockets, cur': Sockets, i: int, trace: seq<Action>, trace': seq<Action>)
    requires Scanning(s, ready, i, cur, trace) && Scanning(s, ready, i + 1, cur', trace')
    requires trace' == trace + Acts(s, ready, k, cur.open, i)
    requires Accept(k.wish) in trace ==> k.wish in cur.master
    ensures Accept(k.wish) in trace' ==> k.wish in cur'.master
  {
    var acts := Acts(s, ready, k, cur.open, i);
    if Accept(k.wish) in trace {
      var j :| 0 <= j < |trace| && trace[j] == Accept(k.wish);
      assert BehindScan(s, ready, i, trace[j]);
    }
    ActsReplay(s, ready, k, cur.open, cur.master, i);
    ReplayConcat(s.master, trace, acts);
  }

  lemma {:induction false} ReplayConcat(fds: set<int>, a: seq<Action>, b: seq<Action>)
    ensures Replay(fds, a + b) == Replay(Replay(fds, a), b)
  {
    if b == [] {
      assert a + b == a;
    } else {
      ReplayConcat(fds, a, b[..|b| - 1]);
      assert (a + b)[..|a + b| - 1] == a + b[..|b| - 1];
    }
  }

  lemma ActsReplay(s: Sockets, ready: set<int>, k: Kernel, open: set<int>, fds: set<int>, i: int)
    ensures var acts := Acts(s, ready, k, open, i);
            && (Accept(k.wish) in acts ==> k.wish in Replay(fds, acts))
            && forall x :: x in fds && (x != i || i !in ready) ==> x in Replay(fds, acts)
  {
    var acts := Acts(s, ready, k, open, i);
    ReplayMeans(fds, acts, k.wish);
    forall x | x in fds && (x != i || i !in ready)
      ensures x in Replay(fds, acts)
    {
      ReplayMeans(fds, acts, x);
    }
  }

  /** What one pass did, given what select had reported. */
  datatype Done = Done(before: Sockets, ready: set<int>, kernel: Kernel, trace: seq<Action>, outcome: Outcome)

  predicate SafePass(d: Done) {
    && Valid(d.before) && d.ready <= d.before.master
    && SafeRecvs(d.before, d.ready, d.trace) && SafeCloses(d.trace) && SafeRecvMsgs(d.before, d.ready, d.trace)
    && (d.outcome.Completed? && d.before.udp in d.ready ==> RecvMsg(d.before.udp) in d.trace)
    && (d.outcome.Completed? ==>
          forall i :: i in d.ready && i >= 1 && i != d.before.udp && i != d.before.tcp ==>
            Recv(i) in d.trace && (Close(i) in d.trace <==> d.kernel.tcp(i).Empty?))
  }

  predicate SafeLog(udp: int, tcp: int, log: seq<Done>) {
    forall j :: 0 <= j < |log| ==> SafePass(log[j]) && log[j].before.udp == udp && log[j].before.tcp == tcp
  }

  /** Every pass but the last completed, and the next one watched what it left. */
  predicate Linked(log: seq<Done>) {
    forall j :: 0 <= j < |log| - 1 ==>
      log[j].outcome.Completed? && log[j + 1].before.master == Replay(log[j].before.master, log[j].trace)
  }

  lemma LinkedAppend(log: seq<Done>, d: Done)
    requires Linked(log)
    requires log != [] ==> log[|log| - 1].outcome.Completed? &&
                           d.before.master == Replay(log[|log| - 1].before.master, log[|log| - 1].trace)
    ensures Linked(log + [d])
  {
  }

  /** The passes are those of the script: what select reported among the watched descriptors. */
  ghost predicate Follows(script: seq<(bool, set<int>, Kernel)>, log: seq<Done>) {
    |log| <= |script| &&
    forall j :: 0 <= j < |log| ==>
      script[j].0 && log[j].ready == script[j].1 * log[j].before.master && log[j].kernel == script[j].2
  }

  lemma FollowsAppend(script: seq<(bool, set<int>, Kernel)>, log: seq<Done>, d: Done)
    requires Follows(script, log) && |log| < |script| && script[|log|].0
    requires d.ready == script[|log|].1 * d.before.master && d.kernel == script[|log|].2
    ensures Follows(script, log + [d])
  {
  }

  /** A pass and its record. */
  method RunPass(s: Sockets, ready: set<int>, k: Kernel) returns (s': Sockets, done: Done)
    requires Valid(s) && ready <= s.master
    ensures done.before == s && done.ready == ready && done.kernel == k && SafePass(done)
    ensures Valid(s') && s'.udp == s.udp && s'.tcp == s.tcp && s'.master == Replay(s.master, done.trace)
  {
    var outcome, trace;
    s', outcome, trace := Pass(s, ready, k);
    done := Done(s, ready, k, trace, outcome);
  }

  /**
   * `sip_daemon_init` from the select loop on, for as many passes as are given: select reports the
   * `wanted` descriptors that are watched, or fails. Every pass of the run is safe, and the loop goes on until
   * select fails, a pass does not complete, or the script ends.
   */
  method SipDaemon(udp: int, tcp: int, open: set<int>, script: seq<(bool, set<int>, Kernel)>)
    returns (last: Sockets, log: seq<Done>)
    requires udp >= 1 && tcp >= 1 && udp != tcp && udp in open && tcp in open
    ensures SafeLog(udp, tcp, log) && Linked(log) && Follows(script, log)
    ensures log != [] ==> log[0].before.master == {udp, tcp}
    ensures |log| == |script| || !script[|log|].0 || (log != [] && !log[|log| - 1].outcome.Completed?)
    ensures Valid(last) && last.udp == udp && last.tcp == tcp
    ensures last.master == if log == [] then {udp, tcp} else Replay(log[|log| - 1].before.master, log[|log| - 1].trace)
  {
    last := Sockets(udp, tcp, {udp, tcp}, open, if tcp > udp then tcp else udp);
    log := [];
    while |log| < |script|
      invariant Follows(script, log) && Valid(last) && last.udp == udp && last.tcp == tcp
      invariant SafeLog(udp, tcp, log) && Linked(log) && (log != [] ==> log[0].before.master == {udp, tcp})
      invariant log != [] ==> log[|log| - 1].outcome.Completed?
      invariant last.master ==
                if log == [] then {udp, tcp} else Replay(log[|log| - 1].before.master, log[|log| - 1].trace)
      decreases |script| - |log|
    {
      var (reported, wanted, k) := script[|log|];
      if !reported {
        return;
      }
      var done;
      last, done := RunPass(last, wanted * last.master, k);
      LinkedAppend(log, done);
      FollowsAppend(script, log, done);
      log := log + [done];
      if done.outcome != Completed {
        return;
      }
    }
  }
}
