/** The server's event handling: which descriptors have a callback, which events the kernel is
    asked to report for them, and which clients exist. The environment picks the order of the
    events and the outcome of every system call. */
module Servers {
  import opened Wrappers
  import opened Folds
  import opened Resp
  import opened RespLaws
  import opened Alignment
  import opened Service
  import opened Stores
  import opened Clients
  import opened Transport
  import opened Effects
  import opened History

  /** The event mask registered with epoll for a descriptor. */
  datatype Interest = Interest(input: bool, output: bool, hangup: bool)

  datatype Callback = OnListener | OnSignals | OnClient(fd: int)

  class EventLoop {
    var callbacks: map<int, Callback>
    /** What the kernel has on record. */
    ghost var interest: map<int, Interest>
    var running: bool

    constructor ()
      ensures callbacks == map[] && interest == map[] && running
    {
      callbacks, interest, running := map[], map[], true;
    }

    /** `granted` is the outcome of `epoll_ctl`. */
    method Add(fd: int, events: Interest, cb: Callback, granted: bool) returns (ok: bool)
      modifies `callbacks, `interest
      ensures ok == granted
      ensures callbacks == if ok then old(callbacks)[fd := cb] else old(callbacks)
      ensures interest == if ok then old(interest)[fd := events] else old(interest)
    {
      if !granted {
        return false;
      }
      callbacks := callbacks[fd := cb];
      interest := interest[fd := events];
      return true;
    }

    method Modify(fd: int, events: Interest, cb: Callback, granted: bool) returns (ok: bool)
      modifies `callbacks, `interest
      ensures ok == granted
      ensures callbacks == if ok then old(callbacks)[fd := cb] else old(callbacks)
      ensures interest == if ok then old(interest)[fd := events] else old(interest)
    {
      ok := Add(fd, events, cb, granted);
    }

    method Remove(fd: int)
      modifies `callbacks, `interest
      ensures callbacks == old(callbacks) - {fd} && interest == old(interest) - {fd}
    {
      callbacks := callbacks - {fd};
      interest := interest - {fd};
    }

    method Start()
      modifies `running
      ensures running
    {
      running := true;
    }

    method Stop()
      modifies `running
      ensures !running
    {
      running := false;
    }
  }

  // ---- bookkeeping, on values --------------------------------------------------------

  function Fds(fd: Option<int>): set<int> {
    if fd.Some? then {fd.value} else {}
  }

  /** Clients, their count, callbacks and registrations are in step: every client is filed
      under its own descriptor, every descriptor with a client has that client's callback, the
      server's own descriptors have theirs, and nothing else is registered. */
  ghost predicate Ordered(clients: map<int, Client>, count: int, callbacks: map<int, Callback>,
                          interest: map<int, Interest>, listener: Option<int>, signals: Option<int>,
                          repr: set<object>)
  {
    && Matched(clients, count, callbacks, interest, listener, signals)
    && forall fd | fd in clients ::
         && fd in callbacks && callbacks[fd] == OnClient(fd) && fd in interest
         && clients[fd].fd == fd && clients[fd].parser.fd == fd
         && clients[fd] in repr && clients[fd].parser in repr
  }

  /** Kept closed. */
  ghost predicate Matched(clients: map<int, Client>, count: int, callbacks: map<int, Callback>,
                          interest: map<int, Interest>, listener: Option<int>, signals: Option<int>)
  {
    forall u {:trigger Open((clients, callbacks, interest), u)} | Open((clients, callbacks, interest), u) ::
      MatchedOpen(clients, count, callbacks, interest, listener, signals)
  }

  ghost predicate MatchedOpen(clients: map<int, Client>, count: int, callbacks: map<int, Callback>,
                              interest: map<int, Interest>, listener: Option<int>, signals: Option<int>)
  {
    && KeysMatch(clients.Keys, count, callbacks.Keys, interest.Keys, Fds(listener) + Fds(signals))
    && Fds(listener) !! Fds(signals)
    && Answers(callbacks, listener, OnListener) && Answers(callbacks, signals, OnSignals)
  }

  ghost predicate KeysMatch(fds: set<int>, count: int, callbacks: set<int>, interest: set<int>, own: set<int>) {
    count == |fds| && callbacks == fds + own && interest == fds + own && fds !! own
  }

  /** One of the server's own descriptors, while it has it, has its callback. */
  predicate Answers(callbacks: map<int, Callback>, fd: Option<int>, cb: Callback) {
    fd.Some? ==> fd.value in callbacks && callbacks[fd.value] == cb
  }

  lemma KeysInsert(fds: set<int>, count: int, callbacks: set<int>, interest: set<int>, own: set<int>, fd: int)
    requires KeysMatch(fds, count, callbacks, interest, own) && fd !in fds + own
    ensures KeysMatch(fds + {fd}, count + 1, callbacks + {fd}, interest + {fd}, own)
  {
  }

  lemma KeysErase(fds: set<int>, count: int, callbacks: set<int>, interest: set<int>, own: set<int>, fd: int)
    requires KeysMatch(fds, count, callbacks, interest, own) && fd in fds
    ensures KeysMatch(fds - {fd}, count - 1, callbacks - {fd}, interest - {fd}, own) && count > 0
  {
  }

  lemma KeysAfterErase<V>(m: map<int, V>, fd: int)
    ensures (m - {fd}).Keys == m.Keys - {fd}
  {
  }

  lemma KeysAfterUpdate<V>(m: map<int, V>, fd: int, v: V)
    ensures m[fd := v].Keys == m.Keys + {fd}
  {
  }

  /** Two maps that differ at one key at most, the second holding at least the others. */
  ghost predicate SameBut<V>(a: map<int, V>, b: map<int, V>, fd: int) {
    forall other | other in a && other != fd :: other in b && a[other] == b[other]
  }

  lemma MatchedInsert(clients: map<int, Client>, count: int, callbacks: map<int, Callback>,
                      interest: map<int, Interest>, listener: Option<int>, signals: Option<int>,
                      fd: int, c: Client, mask: Interest)
    requires Matched(clients, count, callbacks, interest, listener, signals)
    requires fd !in clients && fd !in Fds(listener) && fd !in Fds(signals)
    ensures Matched(clients[fd := c], count + 1, callbacks[fd := OnClient(fd)], interest[fd := mask], listener, signals)
  {
    assert Open((clients, callbacks, interest), true);
    KeysInsert(clients.Keys, count, callbacks.Keys, interest.Keys, Fds(listener) + Fds(signals), fd);
    KeysAfterUpdate(clients, fd, c);
    KeysAfterUpdate(callbacks, fd, OnClient(fd));
    KeysAfterUpdate(interest, fd, mask);
  }

  lemma OrderedInsert(clients: map<int, Client>, count: int, callbacks: map<int, Callback>,
                      interest: map<int, Interest>, listener: Option<int>, signals: Option<int>, repr: set<object>,
                      fd: int, c: Client, mask: Interest)
    requires Ordered(clients, count, callbacks, interest, listener, signals, repr)
    requires fd !in clients && fd !in Fds(listener) && fd !in Fds(signals) && c.fd == fd && c.parser.fd == fd
    ensures Ordered(clients[fd := c], count + 1, callbacks[fd := OnClient(fd)], interest[fd := mask], listener, signals,
                    repr + {c, c.parser})
  {
    MatchedInsert(clients, count, callbacks, interest, listener, signals, fd, c, mask);
  }

  lemma MatchedErase(clients: map<int, Client>, count: int, callbacks: map<int, Callback>,
                     interest: map<int, Interest>, listener: Option<int>, signals: Option<int>, fd: int)
    requires Matched(clients, count, callbacks, interest, listener, signals) && fd in clients
    ensures Matched(clients - {fd}, count - 1, callbacks - {fd}, interest - {fd}, listener, signals) && count > 0
  {
    assert Open((clients, callbacks, interest), true);
    KeysErase(clients.Keys, count, callbacks.Keys, interest.Keys, Fds(listener) + Fds(signals), fd);
    KeysAfterErase(clients, fd);
    KeysAfterErase(callbacks, fd);
    KeysAfterErase(interest, fd);
  }

  lemma OrderedErase(clients: map<int, Client>, count: int, callbacks: map<int, Callback>,
                     interest: map<int, Interest>, listener: Option<int>, signals: Option<int>, repr: set<object>, fd: int)
    requires Ordered(clients, count, callbacks, interest, listener, signals, repr) && fd in clients
    ensures Ordered(clients - {fd}, count - 1, callbacks - {fd}, interest - {fd}, listener, signals, repr) && count > 0
  {
    MatchedErase(clients, count, callbacks, interest, listener, signals, fd);
  }

  lemma NobodyMatches(callbacks: map<int, Callback>, interest: map<int, Interest>, listener: int, signals: int)
    requires listener != signals && callbacks.Keys == interest.Keys == {listener, signals}
    requires callbacks[listener] == OnListener && callbacks[signals] == OnSignals
    ensures Matched(map[], 0, callbacks, interest, Some(listener), Some(signals))
  {
  }

  lemma MatchedUpdate(clients: map<int, Client>, count: int, callbacks: map<int, Callback>,
                      interest: map<int, Interest>, listener: Option<int>, signals: Option<int>, fd: int, mask: Interest)
    requires Matched(clients, count, callbacks, interest, listener, signals) && fd in clients
    ensures Matched(clients, count, callbacks[fd := OnClient(fd)], interest[fd := mask], listener, signals)
  {
    assert Open((clients, callbacks, interest), true);
    KeysAfterUpdate(callbacks, fd, OnClient(fd));
    KeysAfterUpdate(interest, fd, mask);
    KeysKept(clients.Keys, callbacks.Keys, Fds(listener) + Fds(signals), fd);
    KeysKept(clients.Keys, interest.Keys, Fds(listener) + Fds(signals), fd);
  }

  lemma KeysKept(fds: set<int>, keys: set<int>, own: set<int>, fd: int)
    requires keys == fds + own && fd in fds
    ensures keys + {fd} == fds + own
  {
  }

  lemma OrderedUpdate(clients: map<int, Client>, count: int, callbacks: map<int, Callback>,
                      interest: map<int, Interest>, listener: Option<int>, signals: Option<int>, repr: set<object>, fd: int, mask: Interest)
    requires Ordered(clients, count, callbacks, interest, listener, signals, repr) && fd in clients
    ensures Ordered(clients, count, callbacks[fd := OnClient(fd)], interest[fd := mask], listener, signals, repr)
  {
    MatchedUpdate(clients, count, callbacks, interest, listener, signals, fd, mask);
  }

  /** The clients after a round of accepts. The kernel never hands out a descriptor that is in
      use; such an answer ends the round like an error. */
  function Admitted(fds: set<int>, own: set<int>, accepts: seq<AcceptResult>): set<int>
    decreases |accepts|
  {
    if accepts == [] || accepts[0].AcceptFailed? || accepts[0].fd in fds + own then fds
    else Admitted(if accepts[0].registered then fds + {accepts[0].fd} else fds, own, accepts[1..])
  }

  /** The i-th accept is reached: none before it failed or gave a descriptor that was in use. */
  ghost predicate Reached(fds: set<int>, own: set<int>, accepts: seq<AcceptResult>, i: nat)
    requires i < |accepts|
  {
    forall j | 0 <= j <= i :: accepts[j].Connected? && accepts[j].fd !in fds + own && !TakenBefore(accepts, j)
  }

  ghost predicate TakenBefore(accepts: seq<AcceptResult>, j: nat)
    requires j < |accepts| && accepts[j].Connected?
  {
    exists k | 0 <= k < j :: accepts[k] == Connected(accepts[j].fd, true)
  }

  ghost predicate Granted(fds: set<int>, own: set<int>, accepts: seq<AcceptResult>, fd: int) {
    exists i | 0 <= i < |accepts| :: accepts[i] == Connected(fd, true) && Reached(fds, own, accepts, i)
  }

  /** The new clients are those whose registration was granted in an accept that was reached. */
  lemma {:induction false} AdmittedExactly(fds: set<int>, own: set<int>, accepts: seq<AcceptResult>, fd: int)
    ensures fd in Admitted(fds, own, accepts) <==> fd in fds || Granted(fds, own, accepts, fd)
    decreases |accepts|
  {
    if accepts == [] {
    } else if accepts[0].AcceptFailed? || accepts[0].fd in fds + own {
      forall i: nat | i < |accepts| ensures !Reached(fds, own, accepts, i) {
        assert !(accepts[0].Connected? && accepts[0].fd !in fds + own);
      }
    } else {
      var more := if accepts[0].registered then fds + {accepts[0].fd} else fds;
      AdmittedExactly(more, own, accepts[1..], fd);
      forall i: nat | i < |accepts| - 1
        ensures Reached(more, own, accepts[1..], i) <==> Reached(fds, own, accepts, i + 1)
      {
        ReachedLater(fds, own, accepts, i);
      }
      GrantedLater(fds, more, own, accepts, fd);
    }
  }

  lemma GrantedLater(fds: set<int>, more: set<int>, own: set<int>, accepts: seq<AcceptResult>, fd: int)
    requires accepts != [] && accepts[0].Connected? && accepts[0].fd !in fds + own
    requires more == if accepts[0].registered then fds + {accepts[0].fd} else fds
    requires forall i: nat | i < |accepts| - 1 :: Reached(more, own, accepts[1..], i) <==> Reached(fds, own, accepts, i + 1)
    ensures fd in more || Granted(more, own, accepts[1..], fd) <==> fd in fds || Granted(fds, own, accepts, fd)
  {
    assert Reached(fds, own, accepts, 0);
    if Granted(more, own, accepts[1..], fd) {
      var i :| 0 <= i < |accepts[1..]| && accepts[1..][i] == Connected(fd, true) && Reached(more, own, accepts[1..], i);
      assert accepts[i + 1] == Connected(fd, true);
    }
    if Granted(fds, own, accepts, fd) {
      var i :| 0 <= i < |accepts| && accepts[i] == Connected(fd, true) && Reached(fds, own, accepts, i);
      if i > 0 {
        assert accepts[1..][i - 1] == accepts[i];
        assert Reached(more, own, accepts[1..], i - 1);
      }
    }
  }

  lemma ReachedLater(fds: set<int>, own: set<int>, accepts: seq<AcceptResult>, i: nat)
    requires i + 1 < |accepts| && accepts[0].Connected? && accepts[0].fd !in fds + own
    ensures var more := if accepts[0].registered then fds + {accepts[0].fd} else fds;
            Reached(more, own, accepts[1..], i) <==> Reached(fds, own, accepts, i + 1)
  {
    var more, rest := if accepts[0].registered then fds + {accepts[0].fd} else fds, accepts[1..];
    forall j: nat | j <= i && rest[j].Connected?
      ensures rest[j].fd !in more && !TakenBefore(rest, j) <==> rest[j].fd !in fds && !TakenBefore(accepts, j + 1)
    {
      TakenLater(accepts, j);
    }
    if Reached(more, own, rest, i) {
      forall j | 0 <= j <= i + 1
        ensures accepts[j].Connected? && accepts[j].fd !in fds + own && !TakenBefore(accepts, j)
      {
        if j > 0 {
          assert accepts[j] == rest[j - 1];
        }
      }
    }
    if Reached(fds, own, accepts, i + 1) {
      forall j | 0 <= j <= i ensures rest[j].Connected? && rest[j].fd !in more + own && !TakenBefore(rest, j) {
        assert rest[j] == accepts[j + 1];
      }
    }
  }

  lemma TakenLater(accepts: seq<AcceptResult>, j: nat)
    requires j + 1 < |accepts| && accepts[j + 1].Connected?
    ensures TakenBefore(accepts, j + 1) <==> accepts[0] == Connected(accepts[j + 1].fd, true) || TakenBefore(accepts[1..], j)
  {
    var rest := accepts[1..];
    if TakenBefore(accepts, j + 1) {
      var k :| 0 <= k < j + 1 && accepts[k] == Connected(accepts[j + 1].fd, true);
      if k > 0 {
        assert rest[k - 1] == accepts[k] && rest[j] == accepts[j + 1];
      }
    }
    if TakenBefore(rest, j) {
      var k :| 0 <= k < j && rest[k] == Connected(rest[j].fd, true);
      assert accepts[k + 1] == rest[k];
    }
  }

  ghost predicate SubMap(a: map<int, Client>, b: map<int, Client>) {
    forall fd | fd in a :: fd in b && a[fd] == b[fd]
  }

  lemma SubMapUpdate(m: map<int, Client>, fd: int, c: Client)
    requires fd !in m
    ensures SubMap(m, m[fd := c])
  {
  }

  predicate StopsAt(fds: set<int>, own: set<int>, accepts: seq<AcceptResult>, i: nat)
    requires i <= |accepts|
  {
    i == |accepts| || accepts[i].AcceptFailed? || accepts[i].fd in fds + own
  }

  /** The first `i` accepts have turned `before` into `after`. */
  ghost predicate Grew(before: map<int, Client>, after: map<int, Client>, own: set<int>,
                       accepts: seq<AcceptResult>, i: nat)
    requires i <= |accepts|
  {
    SubMap(before, after) && Admitted(before.Keys, own, accepts) == Admitted(after.Keys, own, accepts[i..])
  }

  lemma GrewNothing(before: map<int, Client>, own: set<int>, accepts: seq<AcceptResult>)
    ensures Grew(before, before, own, accepts, 0)
  {
    assert accepts[0..] == accepts;
  }

  lemma GrewOne(before: map<int, Client>, mid: map<int, Client>, after: map<int, Client>, own: set<int>,
                accepts: seq<AcceptResult>, i: nat)
    requires i <= |accepts| && Grew(before, mid, own, accepts, i) && !StopsAt(mid.Keys, own, accepts, i)
    requires SubMap(mid, after)
    requires after.Keys == if accepts[i].registered then mid.Keys + {accepts[i].fd} else mid.Keys
    ensures Grew(before, after, own, accepts, i + 1)
  {
    assert accepts[i..][1..] == accepts[i + 1..];
  }

  lemma GrewAll(before: map<int, Client>, after: map<int, Client>, own: set<int>, accepts: seq<AcceptResult>, i: nat)
    requires i <= |accepts| && Grew(before, after, own, accepts, i) && StopsAt(after.Keys, own, accepts, i)
    ensures SubMap(before, after) && after.Keys == Admitted(before.Keys, own, accepts)
  {
  }

  class Server {
    const loop: EventLoop
    const store: Store
    const clock: Clock
    ghost const handler: Handler
    var clients: map<int, Client>
    var connectedClients: nat
    var listenFd: Option<int>
    var signalFd: Option<int>
    /** How many requests have been executed. */
    var tick: nat

    constructor (clock: Clock, ghost handler: Handler, listener: int, signals: int)
      requires listener != signals
      ensures Whole() && fresh(this) && fresh(loop) && fresh(store) && clients == map[]
      ensures this.handler == handler && store.data == map[] && Repr == {} && log == []
    {
      var events := new EventLoop();
      var added := events.Add(signals, Interest(true, false, false), OnSignals, true);
      added := events.Add(listener, Interest(true, false, false), OnListener, true);
      this.clock, this.handler := clock, handler;
      loop := events;
      store := new Store();
      clients, connectedClients, tick := map[], 0, 0;
      listenFd, signalFd, Repr, log := Some(listener), Some(signals), {}, [];
      new;
      NobodyMatches(loop.callbacks, loop.interest, listener, signals);
      StartsWhole();
    }

    /** The objects behind the clients, those closed included. */
    ghost var Repr: set<object>

    /** Every request executed, in order, with its client. */
    ghost var log: seq<Served<Client>>

    /** Descriptors in use; `accept4` never returns one of these. */
    function OpenFds(): set<int>
      reads this`clients, this`listenFd, this`signalFd
    {
      clients.Keys + OwnFds()
    }

    function OwnFds(): set<int>
      reads this`listenFd, this`signalFd
    {
      Fds(listenFd) + Fds(signalFd)
    }

    /** Descriptors, callbacks, registrations and the client count are in step. */
    ghost predicate Shape()
      reads this`clients, this`connectedClients, this`listenFd, this`signalFd, this`Repr, loop`callbacks, loop`interest
    {
      && Ordered(clients, connectedClients, loop.callbacks, loop.interest, listenFd, signalFd, Repr)
      && this !in Repr && loop !in Repr && store !in Repr
    }

    /** The kernel reports what the client sends, and that it can be written to exactly while it has
        something to write. */
    ghost predicate Wired(fd: int)
      requires fd in clients && fd in loop.interest
      reads this`clients, this`connectedClients, this`listenFd, this`signalFd, this`Repr, loop`callbacks, loop`interest, clients[fd], clients[fd].parser
    {
      && clients[fd].Sound() && clients[fd].handler == handler
      && loop.interest[fd].input && (loop.interest[fd].output <==> clients[fd].state == Writing)
    }

    /** Everything in step, except possibly one client. */
    ghost predicate ValidBut(fd: int)
      reads this`clients, this`connectedClients, this`listenFd, this`signalFd, this`Repr, loop`callbacks, loop`interest, Repr
    {
      Shape() && forall other | other in clients && other != fd :: Wired(other)
    }

    ghost predicate Valid()
      reads this`clients, this`connectedClients, this`listenFd, this`signalFd, this`Repr, loop`callbacks, loop`interest, Repr
    {
      Shape() && forall fd | fd in clients :: Wired(fd)
    }

    /** A client nobody touched stays wired. */
    twostate lemma StillWired(fd: int)
      requires old(fd in clients && fd in loop.interest && Wired(fd))
      requires fd in clients && clients[fd] == old(clients[fd])
      requires unchanged(clients[fd]) && unchanged(clients[fd].parser)
      requires fd in loop.interest && loop.interest[fd] == old(loop.interest[fd])
      ensures Wired(fd)
    {
    }

    lemma AllWired(fd: int)
      requires ValidBut(fd) && (fd in clients ==> Wired(fd))
      ensures Valid()
    {
    }

    lemma ClientsAreApart()
      requires Shape()
      ensures forall fd | fd in clients :: Apart(clients[fd]) && Apart(clients[fd].parser)
    {
    }

    ghost predicate Apart(o: object) {
      o != this && o != loop && o != store
    }

    // ---- the log -----------------------------------------------------------------------

    /** The keyspace is what the log makes of an empty one; the log accounts for every client.
        Kept closed. */
    ghost predicate Chronicle()
      reads this`clients, this`log, this`tick, this`Repr, store, Repr
    {
      forall u {:trigger Open(log, u)} | Open(log, u) :: ChronicleOpen()
    }

    ghost predicate ChronicleOpen()
      reads this`clients, this`log, this`tick, this`Repr, store, Repr
    {
      && Summed(handler, clock, log, store.data, tick)
      && (forall i | 0 <= i < |log| :: log[i].who in Repr)
      && forall fd | fd in clients ::
           clients[fd] in Repr && Told(handler, clock, log, clients[fd], clients[fd].inbox, clients[fd].replies)
    }

    /** The invariant of the server, kept closed: everything is in step, and the log accounts for
        everything. */
    ghost predicate Whole()
      reads this, loop`callbacks, loop`interest, store, Repr
    {
      forall u {:trigger Open(this, u)} | Open(this, u) :: Valid() && Chronicle()
    }

    lemma Unseal()
      requires Whole()
      ensures Valid() && Chronicle()
    {
      assert Open(this, true);
    }

    lemma StartsWhole()
      requires clients == map[] && Repr == {} && log == [] && tick == 0 && store.data == map[]
      requires Matched(map[], connectedClients, loop.callbacks, loop.interest, listenFd, signalFd)
      ensures Whole()
    {
      NothingServed<Client>(handler, clock);
    }

    lemma UnsealShape()
      requires Shape()
      ensures MatchedOpen(clients, connectedClients, loop.callbacks, loop.interest, listenFd, signalFd)
    {
      assert Open((clients, loop.callbacks, loop.interest), true);
    }

    lemma NotRegistered(fd: int)
      requires Shape() && Unused(fd)
      ensures fd !in loop.callbacks && fd !in loop.interest
    {
      UnsealShape();
    }

    lemma UnsealChronicle()
      requires Chronicle()
      ensures ChronicleOpen()
    {
      assert Open(log, true);
    }

    /** While nobody is answered, the log goes on accounting for everybody. */
    twostate lemma ChronicleKept()
      requires old(Chronicle())
      requires log == old(log) && tick == old(tick) && store.data == old(store.data) && old(Repr) <= Repr
      requires forall fd | fd in clients ::
                 && fd in old(clients) && clients[fd] == old(clients)[fd]
                 && clients[fd].inbox == old(clients[fd].inbox) && clients[fd].replies == old(clients[fd].replies)
      ensures Chronicle()
    {
      assert Open(old(log), true);
    }

    /** The same when no client object has changed. */
    twostate lemma ChronicleStands()
      requires old(Chronicle() && Shape()) && Repr == old(Repr) && unchanged(Repr)
      requires log == old(log) && tick == old(tick) && store.data == old(store.data)
      requires SubMap(clients, old(clients))
      ensures Chronicle()
    {
      assert Open(old(log), true);
    }

    /** A client that has just come in has received nothing and been answered nothing. */
    twostate lemma ChronicleAdmits(c: Client)
      requires old(Chronicle()) && c !in old(Repr) && c.inbox == [] && c.replies == []
      requires log == old(log) && tick == old(tick) && store.data == old(store.data) && old(Repr) <= Repr
      requires forall fd | fd in clients ::
                 || (clients[fd] == c && c in Repr)
                 || (fd in old(clients) && clients[fd] == old(clients)[fd]
                     && clients[fd].inbox == old(clients[fd].inbox) && clients[fd].replies == old(clients[fd].replies))
      ensures Chronicle()
    {
      assert Open(old(log), true);
      StrangerIsTold(handler, clock, log, c);
    }

    /** No two clients share a connection or a parser. */
    lemma ClientsAreDistinct(fd: int)
      requires Shape() && fd in clients
      ensures forall other | other in clients && other != fd ::
                Foreign(clients[other], clients[fd]) && Foreign(clients[other].parser, clients[fd])
    {
    }

    ghost predicate Foreign(o: object, c: Client) {
      o != c && o != c.parser && o != this && o != loop && o != store
    }

    /** All clients but one stay wired while only that one and its registration change. */
    twostate lemma OthersStillWired(fd: int)
      requires old(ValidBut(fd)) && Shape()
      requires SameBut(clients, old(clients), fd) && SameBut(loop.interest, old(loop.interest), fd)
      requires forall other | other in clients && other != fd ::
                 unchanged(clients[other]) && unchanged(clients[other].parser)
      ensures ValidBut(fd)
    {
      forall other | other in clients && other != fd ensures Wired(other) {
        assert old(Wired(other));
        assert other in loop.interest;
        StillWired(other);
      }
    }

    twostate lemma NothingChanged()
      requires old(Valid()) && Repr == old(Repr) && clients == old(clients) && connectedClients == old(connectedClients)
      requires loop.callbacks == old(loop.callbacks) && loop.interest == old(loop.interest)
      requires listenFd == old(listenFd) && signalFd == old(signalFd) && unchanged(Repr)
      ensures Valid()
    {
      forall fd | fd in clients ensures Wired(fd) {
        assert old(Wired(fd));
        StillWired(fd);
      }
    }

    /** What an event on a descriptor may change on the client side: that client, no other. */
    ghost function Touched(fd: int): set<object>
      reads this`clients
    {
      if fd in clients then {clients[fd], clients[fd].parser} else {}
    }

    lemma TouchedIsOwned(fd: int)
      requires Whole()
      ensures Touched(fd) <= Repr
    {
      Unseal();
    }

    // ---- clients ---------------------------------------------------------------------

    method DropClient(fd: int)
      requires Shape() && fd in clients
      modifies this`clients, this`connectedClients, loop`callbacks, loop`interest
      ensures clients == old(clients) - {fd} && Repr == old(Repr) && loop.interest == old(loop.interest) - {fd}
      ensures Shape()
    {
      OrderedErase(clients, connectedClients, loop.callbacks, loop.interest, listenFd, signalFd, Repr, fd);
      loop.Remove(fd);
      clients := clients - {fd};
      if connectedClients > 0 {
        connectedClients := connectedClients - 1;
      }
    }

    method CloseClient(fd: int)
      requires ValidBut(fd)
      modifies this`clients, this`connectedClients, loop`callbacks, loop`interest
      ensures Valid() && clients == old(clients) - {fd} && Repr == old(Repr)
    {
      if fd !in clients {
        AbsentKey(clients, fd);
        return;
      }
      ClientsAreApart();
      DropClient(fd);
      OthersStillWired(fd);
    }

    /** `loop_.modify` with a new mask for one client. */
    method Rewire(fd: int, output: bool, granted: bool)
      requires ValidBut(fd) && fd in clients
      requires clients[fd].Sound() && clients[fd].handler == handler && output == (clients[fd].state == Writing)
      modifies this`clients, this`connectedClients, loop`callbacks, loop`interest
      ensures Valid() && clients == (if granted then old(clients) else old(clients) - {fd}) && Repr == old(Repr)
    {
      OrderedUpdate(clients, connectedClients, loop.callbacks, loop.interest, listenFd, signalFd, Repr, fd,
                    Interest(true, output, true));
      var ok := loop.Modify(fd, Interest(true, output, true), OnClient(fd), granted);
      OthersStillWired(fd);
      if !ok {
        CloseClient(fd);
      }
    }

    /** The end of both event handlers: a failed client is closed; one that is now in the state
        `now` gets the interest that goes with it, or is closed if the kernel refuses. */
    method Settle(fd: int, ok: bool, now: ClientState, granted: bool)
      requires ValidBut(fd) && fd in clients && now != Closing
      requires ok ==> clients[fd].Sound() && clients[fd].handler == handler
      requires ok && clients[fd].state != now ==> Wired(fd)
      modifies this`clients, this`connectedClients, loop`callbacks, loop`interest
      ensures Valid() && Repr == old(Repr)
      ensures clients == if ok && (old(clients[fd].state) == now ==> granted) then old(clients) else old(clients) - {fd}
    {
      if !ok {
        CloseClient(fd);
        return;
      }
      if clients[fd].state == now {
        Rewire(fd, now == Writing, granted);
      } else {
        AllWired(fd);
      }
    }

    ghost function Now(c: Client): Moment
      reads this`tick, store, c
    {
      Moment(store.data, tick, c.Seen())
    }

    /** `on_client_readable` for a client that is there, up to the log. */
    method ReadFrom(fd: int, e: Event) returns (ghost stays: bool)
      requires Valid() && Faithful(handler) && fd in clients
      modifies this`clients, this`connectedClients, this`tick, loop`callbacks, loop`interest, store
      modifies clients[fd], clients[fd].parser
      ensures Valid() && Read(handler, clock, old(Now(clients[fd])), Now(old(clients[fd])), e, stays)
      ensures clients == if stays then old(clients) else old(clients) - {fd}
    {
      var c := clients[fd];
      ghost var before := Now(c);
      assert Wired(fd);
      ClientsAreDistinct(fd);
      var ok;
      ok, tick := c.Input(e.recvs, store, clock, tick);
      OthersStillWired(fd);
      stays := ok && (c.state == Writing ==> e.armed);
      TurnIsRead(handler, clock, before, Now(c), e, ok, c.state == Writing);
      Settle(fd, ok, Writing, e.armed);
    }

    /** Everybody but one client is accounted for. */
    ghost predicate OthersTold(fd: int)
      reads this`clients, this`log, this`Repr, Repr
    {
      forall other | other in clients && other != fd ::
        clients[other] in Repr && Told(handler, clock, log, clients[other], clients[other].inbox, clients[other].replies)
    }

    /** Enter the turn of a client in the log. */
    ghost method Record(fd: int, c: Client, before: Moment, e: Event, stays: bool)
      requires Valid() && c.fd == fd && c in Repr && OthersTold(fd) && (fd in clients ==> clients[fd] == c)
      requires Summed(handler, clock, log, before.data, before.tick) && forall i | 0 <= i < |log| :: log[i].who in Repr
      requires Told(handler, clock, log, c, before.face.inbox, before.face.replies)
      requires Read(handler, clock, before, Now(c), e, stays)
      modifies this`log
      ensures Whole() && Entered(old(log), log, c, before.face.inbox, c.inbox)
    {
      ghost var more := Enter(log, c, before.face.inbox, c.inbox);
      ReadIsAnswered(handler, clock, before, Now(c), e, stays);
      EnteredIsTold(handler, clock, log, more, c, before, Now(c));
      forall other | other in clients && other != fd
        ensures Told(handler, clock, more, clients[other], clients[other].inbox, clients[other].replies)
      {
        EnteredByOthers(handler, clock, log, more, c, before.face.inbox, c.inbox, clients[other],
                        clients[other].inbox, clients[other].replies);
      }
      EnteredNames(log, more, c, before.face.inbox, c.inbox, Repr);
      log := more;
    }

    method ServeInput(fd: int, e: Event) returns (ghost stays: bool)
      requires Whole() && Faithful(handler) && fd in clients
      modifies this`clients, this`connectedClients, this`tick, this`log, loop`callbacks, loop`interest, store
      modifies clients[fd], clients[fd].parser
      ensures Whole()
      ensures var c := old(clients[fd]);
              && Read(handler, clock, old(Now(clients[fd])), Now(c), e, stays)
              && Entered(old(log), log, c, old(clients[fd].inbox), c.inbox)
              && clients == if stays then old(clients) else old(clients) - {fd}
    {
      Unseal();
      ghost var c, before := clients[fd], Now(clients[fd]);
      ClientsAreDistinct(fd);
      UnsealChronicle();
      stays := ReadFrom(fd, e);
      Record(fd, c, before, e, stays);
    }

    /** The frames that became whole are answered, executed and entered in the log; `stays` tells
        whether the client survives (`Effects.ReadOpen`). */
    method OnClientReadable(fd: int, e: Event) returns (ghost stays: bool)
      requires Whole() && Faithful(handler)
      modifies this`clients, this`connectedClients, this`tick, this`log, loop`callbacks, loop`interest, store, Touched(fd)
      ensures Whole()
      ensures fd !in old(clients) ==> clients == old(clients) && store.data == old(store.data) && log == old(log)
      ensures fd in old(clients) ==>
                var c := old(clients[fd]);
                && Read(handler, clock, old(Now(clients[fd])), Now(c), e, stays)
                && Entered(old(log), log, c, old(clients[fd].inbox), c.inbox)
                && clients == if stays then old(clients) else old(clients) - {fd}
    {
      if fd !in clients {
        return false;
      }
      stays := ServeInput(fd, e);
    }

    /** `on_client_writable` for a client that is there. */
    method WriteTo(fd: int, e: Event) returns (ghost stays: bool)
      requires Valid() && fd in clients
      modifies this`clients, this`connectedClients, loop`callbacks, loop`interest, clients[fd]
      ensures Valid() && Written(old(clients[fd].Seen()), old(clients[fd]).Seen(), e, stays)
      ensures clients == if stays then old(clients) else old(clients) - {fd}
    {
      var c := clients[fd];
      ghost var before := c.Seen();
      assert Wired(fd);
      ClientsAreDistinct(fd);
      var ok := c.Output(e.sends);
      OthersStillWired(fd);
      stays := ok && (c.state == Reading ==> e.disarmed);
      TurnIsWritten(before, c.Seen(), e, ok, c.state == Reading);
      Settle(fd, ok, Reading, e.disarmed);
    }

    method ServeOutput(fd: int, e: Event) returns (ghost stays: bool)
      requires Whole() && fd in clients
      modifies this`clients, this`connectedClients, loop`callbacks, loop`interest, clients[fd]
      ensures Whole() && Written(old(clients[fd].Seen()), old(clients[fd]).Seen(), e, stays)
      ensures clients == if stays then old(clients) else old(clients) - {fd}
    {
      Unseal();
      ghost var c, before := clients[fd], clients[fd].Seen();
      ClientsAreDistinct(fd);
      stays := WriteTo(fd, e);
      WrittenKeeps(before, c.Seen(), e, stays);
      ChronicleKept();
    }

    /** What the transport takes is sent; `stays` tells whether the client survives
        (`Effects.WrittenOpen`). */
    method OnClientWritable(fd: int, e: Event) returns (ghost stays: bool)
      requires Whole()
      modifies this`clients, this`connectedClients, loop`callbacks, loop`interest, Touched(fd)
      ensures Whole()
      ensures fd !in old(clients) ==> clients == old(clients)
      ensures fd in old(clients) ==>
                && Written(old(clients[fd].Seen()), old(clients[fd]).Seen(), e, stays)
                && clients == if stays then old(clients) else old(clients) - {fd}
      ensures fd in old(clients) && NoSendFails(e.sends) && e.disarmed ==> clients == old(clients)
    {
      if fd !in clients {
        return false;
      }
      ghost var c, before := clients[fd], clients[fd].Seen();
      stays := ServeOutput(fd, e);
      if NoSendFails(e.sends) && e.disarmed {
        HealthyWriteStays(before, c.Seen(), e, stays);
      }
    }

    method CloseBroken(fd: int)
      requires Whole()
      modifies this`clients, this`connectedClients, loop`callbacks, loop`interest
      ensures Whole() && clients == old(clients) - {fd}
    {
      Unseal();
      CloseClient(fd);
      ChronicleStands();
    }

    /** The callback of a client's descriptor (`Effects.HandledOpen`). */
    method OnClientEvent(fd: int, e: Event) returns (ghost stays: bool)
      requires Whole() && Faithful(handler) && fd in clients
      modifies this`clients, this`connectedClients, this`tick, this`log, loop`callbacks, loop`interest, store
      modifies clients[fd], clients[fd].parser
      ensures Whole()
      ensures var c := old(clients[fd]);
              && Handled(handler, clock, old(Now(clients[fd])), Now(c), e, stays)
              && Entered(old(log), log, c, old(clients[fd].inbox), c.inbox)
              && clients == if stays then old(clients) else old(clients) - {fd}
      ensures Harmless(e, old(clients[fd].inbox)) ==> clients == old(clients)
    {
      ghost var c, before := clients[fd], Now(clients[fd]);
      stays := ServeEvent(fd, e);
      if Harmless(e, before.face.inbox) {
        HealthyStays(handler, clock, before, Now(c), e, stays);
      }
    }

    method ServeEvent(fd: int, e: Event) returns (ghost stays: bool)
      requires Whole() && Faithful(handler) && fd in clients
      modifies this`clients, this`connectedClients, this`tick, this`log, loop`callbacks, loop`interest, store
      modifies clients[fd], clients[fd].parser
      ensures Whole()
      ensures var c := old(clients[fd]);
              && Handled(handler, clock, old(Now(clients[fd])), Now(c), e, stays)
              && Entered(old(log), log, c, old(clients[fd].inbox), c.inbox)
              && clients == if stays then old(clients) else old(clients) - {fd}
    {
      ghost var c, before := clients[fd], Now(clients[fd]);
      NothingEntered(log, c, c.inbox);
      if e.broken {
        BrokenIsHandled(handler, clock, before, e);
        CloseBroken(fd);
        return false;
      }
      stays := true;
      if e.input {
        stays := OnClientReadable(fd, e);
      }
      if fd in clients && e.output {
        ghost var mid := Now(c);
        stays := OnClientWritable(fd, e);
        WrittenKeeps(mid.face, c.Seen(), e, stays);
        WrittenIsHandled(handler, clock, before, mid, Now(c), e, stays);
      } else {
        ReadIsHandled(handler, clock, before, Now(c), e, stays);
      }
    }

    // ---- new connections -------------------------------------------------------------

    predicate Unused(fd: int)
      reads this`clients, this`listenFd, this`signalFd
    {
      fd !in clients && fd !in Fds(listenFd) && fd !in Fds(signalFd)
    }

    /** A new client whose descriptor epoll accepted. */
    method InstallClient(fd: int, c: Client)
      requires Shape() && Unused(fd) && c.fd == fd && c.parser.fd == fd
      requires Apart(c) && Apart(c.parser)
      modifies this`clients, this`connectedClients, this`Repr, loop`callbacks, loop`interest
      ensures clients == old(clients)[fd := c] && Repr == old(Repr) + {c, c.parser}
      ensures loop.interest == old(loop.interest)[fd := Interest(true, false, false)]
      ensures Shape()
    {
      OrderedInsert(clients, connectedClients, loop.callbacks, loop.interest, listenFd, signalFd, Repr, fd, c,
                    Interest(true, false, false));
      clients, connectedClients, Repr := clients[fd := c], connectedClients + 1, Repr + {c, c.parser};
      var added := loop.Add(fd, Interest(true, false, false), OnClient(fd), true);
    }

    method AddClient(fd: int, c: Client)
      requires Valid() && Unused(fd) && c.fd == fd && c.parser.fd == fd
      requires Apart(c) && Apart(c.parser)
      requires c.Sound() && c.handler == handler && c.state == Reading
      modifies this`clients, this`connectedClients, this`Repr, loop`callbacks, loop`interest
      ensures Valid() && clients == old(clients)[fd := c] && Repr == old(Repr) + {c, c.parser}
    {
      ClientsAreApart();
      InstallClient(fd, c);
      OthersStillWired(fd);
      AllWired(fd);
    }

    /** A new client whose descriptor epoll refuses is inserted, counted, and closed again. */
    method RefuseClient(fd: int, c: Client)
      requires Valid() && Unused(fd)
      modifies this`clients, this`connectedClients, loop`callbacks, loop`interest
      ensures Valid() && clients == old(clients)
    {
      NotRegistered(fd);
      clients := clients[fd := c];
      connectedClients := connectedClients + 1;
      var added := loop.Add(fd, Interest(true, false, false), OnClient(fd), false);
      loop.Remove(fd);
      clients := clients - {fd};
      if connectedClients > 0 {
        connectedClients := connectedClients - 1;
      }
      RestoredMap(old(clients), fd, c);
      AbsentKey(old(loop.callbacks), fd);
      AbsentKey(old(loop.interest), fd);
      NothingChanged();
    }

    /** Accept until there is nothing to accept: exactly the clients whose registration epoll
        granted are added, and the others stay. */
    method OnNewConnection(accepts: seq<AcceptResult>)
      requires Whole()
      modifies this`clients, this`connectedClients, this`Repr, loop`callbacks, loop`interest
      ensures Whole() && old(Repr) <= Repr && fresh(Repr - old(Repr))
      ensures SubMap(old(clients), clients) && clients.Keys == Admitted(old(clients).Keys, OwnFds(), accepts)
    {
      ghost var own := OwnFds();
      GrewNothing(clients, own, accepts);
      for i := 0 to |accepts|
        invariant Whole() && old(Repr) <= Repr && fresh(Repr - old(Repr)) && OwnFds() == own
        invariant Grew(old(clients), clients, own, accepts, i)
      {
        if accepts[i].AcceptFailed? || accepts[i].fd in OpenFds() {
          GrewAll(old(clients), clients, own, accepts, i);
          return;
        }
        ghost var was := clients;
        AcceptOne(accepts[i].fd, accepts[i].registered);
        GrewOne(old(clients), was, clients, own, accepts, i);
      }
      GrewAll(old(clients), clients, own, accepts, |accepts|);
    }

    method AcceptOne(fd: int, registered: bool)
      requires Whole() && fd !in OpenFds()
      modifies this`clients, this`connectedClients, this`Repr, loop`callbacks, loop`interest
      ensures Whole() && old(Repr) <= Repr && fresh(Repr - old(Repr))
      ensures SubMap(old(clients), clients)
      ensures clients.Keys == if registered then old(clients).Keys + {fd} else old(clients).Keys
    {
      var c := new Client(fd, handler);
      AdmitClient(fd, c, registered);
    }

    method AdmitClient(fd: int, c: Client, registered: bool)
      requires Whole() && fd !in OpenFds() && c.fd == fd && c.parser.fd == fd
      requires Apart(c) && Apart(c.parser)
      requires c !in Repr && c.inbox == [] && c.replies == []
      requires c.Sound() && c.handler == handler && c.state == Reading
      modifies this`clients, this`connectedClients, this`Repr, loop`callbacks, loop`interest
      ensures Whole() && (Repr == old(Repr) || Repr == old(Repr) + {c, c.parser})
      ensures SubMap(old(clients), clients)
      ensures clients.Keys == if registered then old(clients).Keys + {fd} else old(clients).Keys
    {
      Unseal();
      KeysAfterUpdate(clients, fd, c);
      SubMapUpdate(clients, fd, c);
      ClientsAreApart();
      if registered {
        AddClient(fd, c);
        ChronicleAdmits(c);
      } else {
        RefuseClient(fd, c);
        ChronicleStands();
      }
    }

    // ---- shutdown --------------------------------------------------------------------

    /** The server without clients. */
    ghost predicate Idle()
      reads this`clients, this`connectedClients, this`listenFd, this`signalFd, this`Repr, loop`callbacks, loop`interest
    {
      Shape() && clients == map[]
    }

    method RemoveListener()
      requires Idle()
      modifies this`listenFd, loop`callbacks, loop`interest
      ensures Idle() && listenFd == None
    {
      UnsealShape();
      if listenFd.Some? {
        loop.Remove(listenFd.value);
        listenFd := None;
      }
    }

    method RemoveSignals()
      requires Idle() && listenFd == None
      modifies this`signalFd, loop`callbacks, loop`interest
      ensures Idle() && listenFd == signalFd == None
    {
      UnsealShape();
      if signalFd.Some? {
        loop.Remove(signalFd.value);
        signalFd := None;
      }
    }

    /** Close every client, take the server's own descriptors out of the loop, and stop it. */
    method Shutdown()
      requires Whole()
      modifies this`clients, this`connectedClients, this`listenFd, this`signalFd, loop
      ensures Whole() && Idle() && Repr == old(Repr)
      ensures listenFd == signalFd == None && !loop.running
    {
      Unseal();
      CloseEverything();
      ChronicleStands();
    }

    method CloseEverything()
      requires Valid()
      modifies this`clients, this`connectedClients, this`listenFd, this`signalFd, loop
      ensures Valid() && Idle() && Repr == old(Repr)
      ensures listenFd == signalFd == None && !loop.running
    {
      CloseAll();
      RemoveListener();
      RemoveSignals();
      loop.Stop();
    }

    method CloseAll()
      requires Valid()
      modifies this`clients, this`connectedClients, loop`callbacks, loop`interest
      ensures Idle() && Repr == old(Repr)
    {
      var fds := Listed(clients.Keys);
      for i := 0 to |fds|
        invariant Valid() && Repr == old(Repr) && AllIn(clients.Keys, fds[i..])
      {
        CloseClient(fds[i]);
        AllInTail(clients.Keys, fds, i);
      }
      NoneLeft(clients);
    }

    method OnSignal(terminate: bool)
      requires Whole()
      modifies this`clients, this`connectedClients, this`listenFd, this`signalFd, loop
      ensures Whole() && Repr == old(Repr)
      ensures if terminate then Idle() && !loop.running else clients == old(clients)
    {
      if terminate {
        Shutdown();
      }
    }

    // ---- the event loop --------------------------------------------------------------

    lemma ClientsAnswerAsClients(fd: int)
      requires Whole()
      ensures fd in clients ==> fd in loop.callbacks && loop.callbacks[fd] == OnClient(fd)
      ensures fd in loop.callbacks && loop.callbacks[fd].OnClient? ==> fd in clients
    {
      Unseal();
      UnsealShape();
      assert fd in loop.callbacks ==> fd in clients.Keys + OwnFds();
    }

    /** One reported event: look its descriptor up and run the callback, if there still is one. An
        event on a client touches that client alone, and the log grows by what it was served;
        any other event serves nobody. */
    method HandleEvent(e: Event) returns (ghost stays: bool)
      requires Whole() && Faithful(handler)
      modifies this, loop, store, Touched(e.fd)
      ensures Whole() && old(Repr) <= Repr && fresh(Repr - old(Repr))
      ensures e.fd in old(clients) ==>
                var c := old(clients[e.fd]);
                && Handled(handler, clock, old(Now(clients[e.fd])), Now(c), e, stays)
                && Entered(old(log), log, c, old(clients[e.fd].inbox), c.inbox)
                && clients == if stays then old(clients) else old(clients) - {e.fd}
      ensures e.fd in old(clients) && Harmless(e, old(clients[e.fd].inbox)) ==> clients == old(clients)
      ensures e.fd !in old(clients) ==> log == old(log)
      ensures var cb := old(loop.callbacks);
              if e.fd !in cb then clients == old(clients) && loop.callbacks == cb
              else if e.fd in old(clients) then true
              else if e.broken || (cb[e.fd].OnSignals? && e.terminate) then Idle() && !loop.running
              else if cb[e.fd].OnSignals? then clients == old(clients)
              else SubMap(old(clients), clients) && clients.Keys == Admitted(old(clients).Keys, old(OwnFds()), e.accepts)
    {
      stays := false;
      ClientsAnswerAsClients(e.fd);
      if e.fd !in loop.callbacks {
        return;
      }
      match loop.callbacks[e.fd] {
        case OnListener =>
          if e.broken {
            Shutdown();
          } else {
            OnNewConnection(e.accepts);
          }
        case OnSignals =>
          if e.broken {
            Shutdown();
          } else {
            OnSignal(e.terminate);
          }
        case OnClient(fd) => stays := OnClientEvent(fd, e);
      }
    }

    method RunOnce(batch: seq<Event>)
      requires Whole() && Faithful(handler)
      modifies this, loop, store, Repr
      ensures Whole() && old(Repr) <= Repr && fresh(Repr - old(Repr)) && old(log) <= log
    {
      for i := 0 to |batch|
        invariant Whole() && old(Repr) <= Repr && fresh(Repr - old(Repr)) && old(log) <= log
      {
        TouchedIsOwned(batch[i].fd);
        ghost var c := if batch[i].fd in clients then Some(clients[batch[i].fd]) else None;
        ghost var was, inbox := log, if c.Some? then c.value.inbox else [];
        ghost var stays := HandleEvent(batch[i]);
        if c.Some? {
          LogOnlyGrows(was, log, c.value, inbox, c.value.inbox);
        }
      }
    }

    /** Any number of rounds, None being a failed `epoll_wait`: whatever the environment does,
        everything stays in step, and the log goes on from where it was. */
    method Run(rounds: seq<Option<seq<Event>>>)
      requires Whole() && Faithful(handler)
      modifies this, loop, store, Repr
      ensures Whole() && old(Repr) <= Repr && fresh(Repr - old(Repr)) && old(log) <= log
    {
      loop.Start();
      var i := 0;
      while i < |rounds| && loop.running
        invariant i <= |rounds| && old(Repr) <= Repr && fresh(Repr - old(Repr)) && old(log) <= log
        invariant Whole()
      {
        if rounds[i].None? {
          loop.Stop();
        } else {
          RunOnce(rounds[i].value);
        }
        i := i + 1;
      }
    }
  }

  ghost predicate AllIn(fds: set<int>, q: seq<int>) {
    forall fd | fd in fds :: fd in q
  }

  lemma AllInTail(fds: set<int>, q: seq<int>, i: nat)
    requires i < |q| && AllIn(fds, q[i..]) && q[i] !in fds
    ensures AllIn(fds, q[i + 1..])
  {
    assert q[i..] == [q[i]] + q[i + 1..];
  }

  lemma NoneLeft(clients: map<int, Client>)
    requires AllIn(clients.Keys, [])
    ensures clients == map[]
  {
    assert forall fd :: fd !in clients.Keys;
    assert clients.Keys <= {};
  }

  lemma SomeMember<T>(s: set<T>) returns (x: T)
    requires s != {}
    ensures x in s
  {
    x :| x in s;
  }

  /** The copy of the client descriptors that shutdown walks over. */
  method Listed(fds: set<int>) returns (q: seq<int>)
    ensures AllIn(fds, q)
  {
    var rest := fds;
    q := [];
    while rest != {}
      invariant forall fd | fd in fds :: fd in rest || fd in q
    {
      ghost var some := SomeMember(rest);
      var fd :| fd in rest;
      rest := rest - {fd};
      q := q + [fd];
    }
  }

  lemma RestoredMap<V>(m: map<int, V>, fd: int, v: V)
    requires fd !in m
    ensures m[fd := v] - {fd} == m
  {
  }

  lemma AbsentKey<V>(m: map<int, V>, fd: int)
    requires fd !in m
    ensures m - {fd} == m
  {
  }

  /** After a shutdown nothing is registered any more. */
  lemma ShutdownIsComplete(s: Server)
    requires s.Idle() && s.listenFd == s.signalFd == None
    ensures s.loop.callbacks == map[] && s.loop.interest == map[] && s.connectedClients == 0
  {
    s.UnsealShape();
    assert s.loop.callbacks.Keys == {} && s.loop.interest.Keys == {};
  }

  /** Nothing is stuck: the kernel reports what a client sends; a client with unsent bytes is one it
      will report as writable, and a client without is one it will not. */
  lemma NothingIsStuck(s: Server, fd: int)
    requires s.Whole() && fd in s.clients
    ensures fd in s.loop.interest && s.loop.interest[fd].input
    ensures Left(s.clients[fd].Seen()) != [] <==> s.loop.interest[fd].output
    ensures Left(s.clients[fd].Seen()) != [] <==> s.clients[fd].state == Writing
    ensures s.connectedClients == |s.clients|
    ensures s.loop.callbacks.Keys == s.clients.Keys + s.OwnFds()
  {
    s.Unseal();
    s.UnsealShape();
    assert s.Wired(fd);
    s.clients[fd].Unseal();
    LeftIsUnsent(s.clients[fd]);
  }

  /** At every moment the keyspace is the result of executing the logged requests one after the
      other on an empty one, and every client's frames and replies are its part of the log. */
  lemma EverythingIsSequential(s: Server, fd: int)
    requires s.Whole() && Faithful(s.handler) && fd in s.clients
    ensures var served, c := Serve(map[], s.clock, 0, RequestsIn(s.log)), s.clients[fd];
            && s.store.data == served.state && s.tick == |s.log|
            && Drain(c.inbox).values == RequestsOf(s.log, c)
            && c.replies == RepliesFor(s.log, served.outputs, c)
            && c.sent + Left(c.Seen()) == RenderAll(c.replies)
  {
    assert Open((s.log, s.clients[fd]), true) && Open((s.log, s.store.data), true);
    s.Unseal();
    s.UnsealChronicle();
    assert s.Wired(fd);
    s.clients[fd].Unseal();
    LeftIsUnsent(s.clients[fd]);
    PastIsServed(s.handler, s.clock, s.log);
  }

  /** So each peer, whatever the others did, reads one whole value per frame it sent, in order, if
      the requests fit and none names an unknown command with a line terminator. */
  lemma EveryPeerIsInStep(s: Server, fd: int)
    requires s.Whole() && Faithful(s.handler) && fd in s.clients
    requires Roomy(map[], s.clock, 0, RequestsIn(s.log)) && Clean(RequestsIn(s.log))
    ensures var c := s.clients[fd];
            && Drain(c.sent + Left(c.Seen())) == Stream(Meanings(c.replies), [], false)
            && |c.replies| == |Drain(c.inbox).values|
  {
    var c := s.clients[fd];
    s.Unseal();
    s.UnsealChronicle();
    assert s.Wired(fd);
    c.Unseal();
    LeftIsUnsent(c);
    ToldIsWireable(s.handler, s.clock, s.log, c, c.inbox, c.replies);
    RepliesAlign(c.replies);
  }
}
