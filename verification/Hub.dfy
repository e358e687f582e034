/**
 The websocket hub: one loop owns the client table and closes send channels; every connection
 has a bounded send channel and two pumps that race to clean up through a compare-and-swap.
 A schedule is a sequence of step labels. Deliveries and shutdown go one channel at a time, so
 pumps may run between any two of the hub's channel operations.
*/
module Hub {

  const SEND_BUFFER := 64
  const BROADCAST_BUFFER := 256

  datatype Outbound = Outbound(targets: seq<string>, data: string)

  datatype Who = Reader | Writer
  datatype Pump = NotStarted | Running | Unregistering | ClosingSocket | Stopped

  /** History of one non-blocking send: the frame, the channel's length at that moment, and whether Conn.Send made it. */
  datatype Offer = Offer(data: string, backlog: nat, direct: bool)

  /** `sendClosed`: close(c.send) has happened; `closed`: the compare-and-swap flag. */
  datatype Conn = Conn(
    user: string, registered: bool, buffer: seq<string>, sendClosed: bool, closed: bool,
    reader: Pump, writer: Pump, socketClosed: bool, offers: seq<Offer>, taken: seq<string>)
  {
    function Pump(who: Who): Pump { if who.Reader? then reader else writer }
    function With(who: Who, p: Pump): Conn { if who.Reader? then this.(reader := p) else this.(writer := p) }

    /** select { case c.send <- data: default: } on an open channel. */
    function Try(data: string, direct: bool): Conn {
      this.(offers := offers + [Offer(data, |buffer|, direct)],
            buffer := if |buffer| < SEND_BUFFER then buffer + [data] else buffer)
    }
  }

  datatype Pc =
    | Selecting
    | Delivering(data: string, pending: set<nat>, rest: seq<string>)
    | ClosingAll(pending: set<nat>)
    | Returned

  /** What the hub loop has received, in order. */
  datatype Event = Joined(c: nat, user: string) | Left(c: nat, user: string) | Took(out: Outbound)

  type Clients = map<string, set<nat>>

  datatype State = State(
    pc: Pc, clients: Clients, queue: seq<Outbound>, conns: map<nat, Conn>,
    offline: seq<string>, events: seq<Event>, panicked: bool)

  datatype Step =
    | Accept(c: nat, user: string)      // NewConn
    | Enqueue(out: Outbound)            // Hub.Broadcast
    | SendDirect(c: nat, data: string)  // Conn.Send, by any goroutine that holds the connection
    | Register(c: nat)                  // rendezvous on h.register
    | Start(c: nat)                     // Conn.Run starts both pumps
    | Take                              // receive from h.broadcast
    | OfferTo(c: nat)                   // one select { case conn.send <- data: default: }
    | NextTarget                        // next iteration over the targets
    | EndDelivery
    | Shutdown                          // ctx.Done() seen by the hub
    | CloseOne(c: nat)                  // one close(conn.send) of closeAll
    | EndShutdown
    | TakeFrame(c: nat)                 // the write pump receives a frame
    | Quit(c: nat, who: Who)            // a pump's loop ends and its cleanup runs the compare-and-swap
    | Unregister(c: nat, who: Who)      // rendezvous on h.unregister
    | CloseSocket(c: nat, who: Who)     // c.WS.Close() after Unregister returned

  const START := State(Selecting, map[], [], map[], [], [], false)

  // ---------------------------------------------------------------- the client table

  function AddClient(clients: Clients, c: nat, user: string): Clients {
    clients[user := (if user in clients then clients[user] else {}) + {c}]
  }

  function DropClient(clients: Clients, c: nat, user: string): Clients {
    if user !in clients then clients
    else if clients[user] - {c} == {} then clients - {user}
    else clients[user := clients[user] - {c}]
  }

  predicate InTable(clients: Clients, c: nat, user: string) {
    user in clients && c in clients[user]
  }

  /** The unregister arm starts the offline callback. */
  predicate GoesOffline(clients: Clients, c: nat, user: string) {
    user in clients && clients[user] - {c} == {}
  }

  function Everyone(clients: Clients): set<nat> {
    set u, c | u in clients && c in clients[u] :: c
  }

  // ---------------------------------------------------------------- the steps

  predicate Enabled(s: State, step: Step) {
    !s.panicked &&
    match step
    case Accept(c, _) => c !in s.conns
    case Enqueue(_) => |s.queue| < BROADCAST_BUFFER
    case SendDirect(c, _) => c in s.conns
    case Register(c) => s.pc.Selecting? && c in s.conns && !s.conns[c].registered
    case Start(c) => c in s.conns && s.conns[c].registered && s.conns[c].reader.NotStarted? && s.conns[c].writer.NotStarted?
    case Take => s.pc.Selecting? && s.queue != []
    case OfferTo(c) => s.pc.Delivering? && c in s.pc.pending && c in s.conns
    case NextTarget => s.pc.Delivering? && s.pc.pending == {} && s.pc.rest != []
    case EndDelivery => s.pc.Delivering? && s.pc.pending == {} && s.pc.rest == []
    case Shutdown => s.pc.Selecting?
    case CloseOne(c) => s.pc.ClosingAll? && c in s.pc.pending && c in s.conns
    case EndShutdown => s.pc.ClosingAll? && s.pc.pending == {}
    case TakeFrame(c) => c in s.conns && s.conns[c].writer.Running? && s.conns[c].buffer != []
    case Quit(c, who) => c in s.conns && s.conns[c].Pump(who).Running?
    case Unregister(c, who) => s.pc.Selecting? && c in s.conns && s.conns[c].Pump(who).Unregistering?
    case CloseSocket(c, who) => c in s.conns && s.conns[c].Pump(who).ClosingSocket?
  }

  function Put(s: State, c: nat, x: Conn): State {
    s.(conns := s.conns[c := x])
  }

  function Do(s: State, step: Step): State
    requires Enabled(s, step)
  {
    match step
    case Accept(c, user) => Put(s, c, Conn(user, false, [], false, false, NotStarted, NotStarted, false, [], []))
    case Enqueue(out) => s.(queue := s.queue + [out])
    case SendDirect(c, data) =>
      if s.conns[c].sendClosed then s.(panicked := true) else Put(s, c, s.conns[c].Try(data, true))
    case Register(c) =>
      var user := s.conns[c].user;
      Put(s, c, s.conns[c].(registered := true)).(
        clients := AddClient(s.clients, c, user), events := s.events + [Joined(c, user)])
    case Start(c) => Put(s, c, s.conns[c].(reader := Running, writer := Running))
    case Take =>
      var out := s.queue[0];
      s.(queue := s.queue[1..], events := s.events + [Took(out)],
         pc := if out.targets == [] then Delivering(out.data, Everyone(s.clients), [])
               else Delivering(out.data, {}, out.targets))
    case OfferTo(c) =>
      var x := s.conns[c];
      if x.sendClosed then s.(panicked := true)
      else
        Put(s, c, x.Try(s.pc.data, false)).(pc := s.pc.(pending := s.pc.pending - {c}))
    case NextTarget =>
      s.(pc := Delivering(s.pc.data, if s.pc.rest[0] in s.clients then s.clients[s.pc.rest[0]] else {}, s.pc.rest[1..]))
    case EndDelivery => s.(pc := Selecting)
    case Shutdown => s.(pc := ClosingAll(Everyone(s.clients)))
    case CloseOne(c) =>
      if s.conns[c].sendClosed then s.(panicked := true)
      else Put(s, c, s.conns[c].(sendClosed := true)).(pc := ClosingAll(s.pc.pending - {c}))
    case EndShutdown => s.(pc := Returned)
    case TakeFrame(c) =>
      var x := s.conns[c];
      Put(s, c, x.(taken := x.taken + [x.buffer[0]], buffer := x.buffer[1..]))
    case Quit(c, who) =>
      var x := s.conns[c];
      Put(s, c, if x.closed then x.With(who, Stopped) else x.(closed := true).With(who, Unregistering))
    case Unregister(c, who) =>
      var x := s.conns[c];
      if InTable(s.clients, c, x.user) && x.sendClosed then s.(panicked := true)
      else
        Put(s, c, x.(sendClosed := x.sendClosed || InTable(s.clients, c, x.user)).With(who, ClosingSocket)).(
          clients := DropClient(s.clients, c, x.user),
          offline := s.offline + if GoesOffline(s.clients, c, x.user) then [x.user] else [],
          events := s.events + [Left(c, x.user)])
    case CloseSocket(c, who) => Put(s, c, s.conns[c].(socketClosed := true).With(who, Stopped))
  }

  predicate Valid(steps: seq<Step>)
    decreases |steps|, 0
  {
    steps == [] || (Valid(steps[..|steps| - 1]) && Enabled(Run(steps[..|steps| - 1]), steps[|steps| - 1]))
  }

  function Run(steps: seq<Step>): State
    requires Valid(steps)
    decreases |steps|, 1
  {
    if steps == [] then START else Do(Run(steps[..|steps| - 1]), steps[|steps| - 1])
  }

  // ---------------------------------------------------------------- the flat specification

  /** The live connections with their users: a flat set that joins and leaves update. */
  function Live(events: seq<Event>): set<(nat, string)> {
    if events == [] then {}
    else
      LiveAfter(Live(events[..|events| - 1]), events[|events| - 1])
  }

  function LiveAfter(live: set<(nat, string)>, e: Event): set<(nat, string)> {
    if e.Joined? then live + {(e.c, e.user)}
    else if e.Left? then live - {(e.c, e.user)}
    else live
  }

  function Multiplicity(targets: seq<string>, user: string): nat {
    if targets == [] then 0 else (if targets[0] == user then 1 else 0) + Multiplicity(targets[1..], user)
  }

  /** How many copies of a broadcast a live connection of this user is owed. */
  function Copies(out: Outbound, user: string): nat {
    if out.targets == [] then 1 else Multiplicity(out.targets, user)
  }

  function Times(data: string, n: nat): seq<string> {
    if n == 0 then [] else [data] + Times(data, n - 1)
  }

  /** The frames addressed to a connection: broadcasts taken while it was live, in order. */
  function AddressedTo(events: seq<Event>, c: nat, user: string): seq<string> {
    if events == [] then []
    else
      var n := |events| - 1;
      AddressedTo(events[..n], c, user)
      + if events[n].Took? && (c, user) in Live(events[..n]) then Times(events[n].out.data, Copies(events[n].out, user)) else []
  }

  predicate UserLive(live: set<(nat, string)>, user: string) {
    exists p :: p in live && p.1 == user
  }

  /** The offline callbacks: one whenever a departure leaves its user without a live connection. */
  function OfflineCalls(events: seq<Event>): seq<string> {
    if events == [] then []
    else
      var n := |events| - 1;
      OfflineCalls(events[..n])
      + if events[n].Left? && !UserLive(Live(events), events[n].user) then [events[n].user] else []
  }

  function Accepted(offers: seq<Offer>): seq<string> {
    if offers == [] then []
    else
      var n := |offers| - 1;
      Accepted(offers[..n]) + if offers[n].backlog < SEND_BUFFER then [offers[n].data] else []
  }

  function Dropped(offers: seq<Offer>): nat {
    if offers == [] then 0
    else Dropped(offers[..|offers| - 1]) + if offers[|offers| - 1].backlog < SEND_BUFFER then 0 else 1
  }

  /** The frames the hub itself offered. */
  function Broadcasts(offers: seq<Offer>): seq<string> {
    if offers == [] then []
    else
      var n := |offers| - 1;
      Broadcasts(offers[..n]) + if offers[n].direct then [] else [offers[n].data]
  }

  /** The frames offered by Conn.Send. */
  function Direct(offers: seq<Offer>): seq<string> {
    if offers == [] then []
    else
      var n := |offers| - 1;
      Direct(offers[..n]) + if offers[n].direct then [offers[n].data] else []
  }

  /** The direct sends of a schedule to one connection. */
  function SentTo(steps: seq<Step>, c: nat): seq<string> {
    if steps == [] then []
    else
      var n := |steps| - 1;
      SentTo(steps[..n], c) + if steps[n].SendDirect? && steps[n].c == c then [steps[n].data] else []
  }

  // ---------------------------------------------------------------- the invariant

  predicate IsLive(s: State, c: nat) {
    c in s.conns && (c, s.conns[c].user) in Live(s.events)
  }

  /** The map of sets is the flat set, grouped by user, with no empty group. */
  ghost predicate TableOk(s: State) {
    && (forall u :: u in s.clients ==> s.clients[u] != {})
    && (forall u, c: nat :: InTable(s.clients, c, u) <==> (c, u) in Live(s.events))
    && (forall p :: p in Live(s.events) ==> p.0 in s.conns && s.conns[p.0].user == p.1 && s.conns[p.0].registered)
    && s.offline == OfflineCalls(s.events)
  }

  /** The hub has closed this live connection's channel: only ever while shutting down. */
  predicate ShutBy(pc: Pc, c: nat) {
    pc.Returned? || (pc.ClosingAll? && c !in pc.pending)
  }

  /** A connection's life: channel, flag and pumps agree with the hub's table. */
  predicate LifeFields(x: Conn, live: bool, shut: bool) {
    if !x.registered then
      && !live && x.reader.NotStarted? && x.writer.NotStarted?
      && !x.closed && !x.sendClosed && !x.socketClosed && x.taken == []
    else if live then
      && !x.reader.ClosingSocket? && !x.writer.ClosingSocket? && !x.socketClosed
      && (x.closed <==> x.reader.Unregistering? || x.writer.Unregistering?)
      && !(x.reader.Unregistering? && x.writer.Unregistering?)
      && (x.sendClosed <==> shut)
    else
      && x.closed && x.sendClosed && !x.reader.Unregistering? && !x.writer.Unregistering?
      && (x.socketClosed || x.reader.ClosingSocket? || x.writer.ClosingSocket?)
  }

  predicate LifeOk(s: State, c: nat)
    requires c in s.conns
  {
    LifeFields(s.conns[c], IsLive(s, c), ShutBy(s.pc, c))
  }

  function OwedCopies(s: State, c: nat): nat
    requires c in s.conns
  {
    if s.pc.Delivering? && IsLive(s, c)
    then (if c in s.pc.pending then 1 else 0) + Multiplicity(s.pc.rest, s.conns[c].user)
    else 0
  }

  /** A connection's accounts: what it was offered and still is owed is what was addressed to it. */
  ghost predicate AccountsOk(s: State, c: nat)
    requires c in s.conns
  {
    var x := s.conns[c];
    && |x.buffer| <= SEND_BUFFER
    && Accepted(x.offers) == x.taken + x.buffer
    && (forall i :: 0 <= i < |x.offers| ==> x.offers[i].backlog <= SEND_BUFFER)
    && Broadcasts(x.offers) + Times(if s.pc.Delivering? then s.pc.data else "", OwedCopies(s, c))
       == AddressedTo(s.events, c, x.user)
  }

  ghost predicate PcOk(s: State) {
    (s.pc.Delivering? || s.pc.ClosingAll?) ==> forall c :: c in s.pc.pending ==> IsLive(s, c)
  }

  ghost predicate Inv(s: State) {
    && |s.queue| <= BROADCAST_BUFFER
    && TableOk(s)
    && PcOk(s)
    && (forall e :: e in s.events && e.Joined? ==> e.c in s.conns)
    && (forall c :: c in s.conns ==> LifeOk(s, c) && AccountsOk(s, c))
  }

  // ---------------------------------------------------------------- preservation

  lemma Snoc(events: seq<Event>, e: Event)
    ensures Live(events + [e]) == LiveAfter(Live(events), e)
    ensures OfflineCalls(events + [e]) ==
            OfflineCalls(events) + if e.Left? && !UserLive(Live(events + [e]), e.user) then [e.user] else []
  {
    assert (events + [e])[..|events|] == events;
  }

  lemma AddressedSnoc(events: seq<Event>, e: Event, c: nat, user: string)
    ensures AddressedTo(events + [e], c, user) ==
            AddressedTo(events, c, user)
            + if e.Took? && (c, user) in Live(events) then Times(e.out.data, Copies(e.out, user)) else []
  {
    assert (events + [e])[..|events|] == events;
  }

  /** The pump that asks to unregister belongs to a live connection with an open channel. */
  lemma UnregisterIsLive(s: State, c: nat, who: Who)
    requires Inv(s) && s.pc.Selecting? && c in s.conns && s.conns[c].Pump(who).Unregistering?
    ensures IsLive(s, c) && !s.conns[c].sendClosed && InTable(s.clients, c, s.conns[c].user)
  {
    hide Live, OfflineCalls, AccountsOk;
  }

  /** A direct send that finds its channel closed. */
  predicate Faulty(s: State, step: Step) {
    step.SendDirect? && step.c in s.conns && s.conns[step.c].sendClosed
  }

  lemma NoPanicStep(s: State, step: Step)
    requires Inv(s) && Enabled(s, step)
    requires step.SendDirect? ==> !Faulty(s, step)
    ensures !Do(s, step).panicked
  {
    hide Live, OfflineCalls, AccountsOk, AddClient, DropClient, Everyone, GoesOffline, TableOk;
    match step {
      case OfferTo(c) => assert IsLive(s, c) && LifeOk(s, c);
      case CloseOne(c) => assert IsLive(s, c) && LifeOk(s, c);
      case Unregister(c, who) => UnregisterIsLive(s, c, who);
      case _ =>
    }
  }

  /** A panic leaves everything else as it was. */
  lemma PanicOnly(s: State, step: Step)
    requires Enabled(s, step) && Faulty(s, step)
    ensures Do(s, step) == s.(panicked := true)
    ensures forall c :: IsLive(Do(s, step), c) <==> IsLive(s, c)
  {
  }

  lemma PanicKeepsInv(s: State)
    requires Inv(s)
    ensures Inv(s.(panicked := true))
  {
    hide Live, OfflineCalls, AddressedTo, Broadcasts, Accepted, Times, Multiplicity, LifeFields;
    var t := s.(panicked := true);
    assert TableOk(t) by { assert TableOk(s); }
    forall c | c in t.conns ensures LifeOk(t, c) && AccountsOk(t, c) {
      assert LifeOk(s, c) && AccountsOk(s, c);
      assert OwedCopies(t, c) == OwedCopies(s, c);
    }
  }

  /** What the hub loop receives in this step. */
  function EventOf(s: State, step: Step): seq<Event>
    requires Enabled(s, step)
  {
    if step.Register? then [Joined(step.c, s.conns[step.c].user)]
    else if step.Unregister? then [Left(step.c, s.conns[step.c].user)]
    else if step.Take? then [Took(s.queue[0])]
    else []
  }

  lemma EventsOf(s: State, step: Step)
    requires Inv(s) && Enabled(s, step)
    requires step.SendDirect? ==> !Faulty(s, step)
    ensures Do(s, step).events == s.events + EventOf(s, step)
  {
    hide Inv;
    NoPanicStep(s, step);
  }

  lemma RegisterTable(s: State, c: nat)
    requires Inv(s) && Enabled(s, Register(c))
    ensures TableOk(Do(s, Register(c)))
  {
    hide Live, OfflineCalls, AccountsOk, LifeOk, PcOk;
    var user := s.conns[c].user;
    var t := Do(s, Register(c));
    Snoc(s.events, Joined(c, user));
    forall u, d: nat ensures InTable(t.clients, d, u) <==> InTable(s.clients, d, u) || (d == c && u == user) {}
  }

  lemma DropTable(clients: Clients, c: nat, user: string)
    ensures forall u, d: nat :: InTable(DropClient(clients, c, user), d, u) <==> InTable(clients, d, u) && !(d == c && u == user)
    ensures (forall u :: u in clients ==> clients[u] != {}) ==>
              forall u :: u in DropClient(clients, c, user) ==> DropClient(clients, c, user)[u] != {}
  {
    forall u, d: nat
      ensures InTable(DropClient(clients, c, user), d, u) <==> InTable(clients, d, u) && !(d == c && u == user)
    {
      if u == user && u in clients && clients[u] - {c} == {} && d in clients[u] {
        assert d in clients[u] - {c} || d == c;
      }
    }
  }

  lemma UnregisterTable(s: State, c: nat, who: Who)
    requires Inv(s) && Enabled(s, Unregister(c, who))
    ensures TableOk(Do(s, Unregister(c, who)))
  {
    hide *;
    assert TableOk(s) by { InvParts(s); }
    EnabledParts(s, c, who);
    UnregisterIsLive(s, c, who);
    DropEffect(s, c, who);
    DropKeepsTable(s, Do(s, Unregister(c, who)), c);
  }

  lemma EnabledParts(s: State, c: nat, who: Who)
    requires Enabled(s, Unregister(c, who))
    ensures s.pc.Selecting? && c in s.conns && s.conns[c].Pump(who).Unregistering?
  {
  }

  lemma InvParts(s: State)
    requires Inv(s)
    ensures TableOk(s) && PcOk(s)
    ensures forall c :: c in s.conns ==> LifeOk(s, c) && AccountsOk(s, c)
  {
    hide TableOk, PcOk, LifeOk, AccountsOk;
  }

  lemma DropKeepsTable(s: State, t: State, c: nat)
    requires TableOk(s) && c in s.conns && InTable(s.clients, c, s.conns[c].user)
    requires t.clients == DropClient(s.clients, c, s.conns[c].user)
    requires t.events == s.events + [Left(c, s.conns[c].user)]
    requires t.offline == s.offline + (if GoesOffline(s.clients, c, s.conns[c].user) then [s.conns[c].user] else [])
    requires forall d :: d in s.conns ==>
                           d in t.conns && t.conns[d].user == s.conns[d].user && t.conns[d].registered == s.conns[d].registered
    ensures TableOk(t)
  {
    hide Live, OfflineCalls, DropClient, InTable, GoesOffline;
    var user := s.conns[c].user;
    Snoc(s.events, Left(c, user));
    DropTable(s.clients, c, user);
    LastConnection(s.clients, Live(s.events), c, user);
  }

  lemma DropEffect(s: State, c: nat, who: Who)
    requires Inv(s) && Enabled(s, Unregister(c, who))
    ensures var t := Do(s, Unregister(c, who));
            && t.clients == DropClient(s.clients, c, s.conns[c].user)
            && t.events == s.events + [Left(c, s.conns[c].user)]
            && t.offline == s.offline + (if GoesOffline(s.clients, c, s.conns[c].user) then [s.conns[c].user] else [])
            && (forall d :: d in s.conns ==> d in t.conns && t.conns[d].user == s.conns[d].user
                                             && t.conns[d].registered == s.conns[d].registered)
  {
    hide Live, OfflineCalls, AccountsOk, LifeOk, PcOk, DropClient, InTable, GoesOffline, TableOk;
    NoPanicStep(s, Unregister(c, who));
  }

  /** The callback condition on the map is the flat one: nobody else of this user is live. */
  lemma LastConnection(clients: Clients, live: set<(nat, string)>, c: nat, user: string)
    requires forall u, d: nat :: InTable(clients, d, u) <==> (d, u) in live
    requires InTable(clients, c, user)
    ensures GoesOffline(clients, c, user) <==> !UserLive(live - {(c, user)}, user)
  {
    if d :| d in clients[user] - {c} {
      assert InTable(clients, d, user);
      assert (d, user) in live - {(c, user)};
    }
    if UserLive(live - {(c, user)}, user) {
      var p :| p in live - {(c, user)} && p.1 == user;
      assert p == (p.0, user) && InTable(clients, p.0, user);
      assert p.0 in clients[user] - {c};
    }
  }

  lemma TableStep(s: State, step: Step)
    requires Inv(s) && Enabled(s, step)
    requires step.SendDirect? ==> !Faulty(s, step)
    ensures TableOk(Do(s, step))
  {
    hide Do, Enabled, Inv, TableOk;
    match step {
      case Register(c) => RegisterTable(s, c);
      case Unregister(c, who) => UnregisterTable(s, c, who);
      case Take => TakeTable(s);
      case _ => QuietTable(s, step);
    }
  }

  lemma QuietTable(s: State, step: Step)
    requires Inv(s) && Enabled(s, step) && !step.Register? && !step.Unregister? && !step.Take?
    requires step.SendDirect? ==> !Faulty(s, step)
    ensures TableOk(Do(s, step))
  {
    hide Live, OfflineCalls, AccountsOk, LifeOk, PcOk, AddClient, DropClient, Everyone, InTable, GoesOffline;
    NoPanicStep(s, step);
    var t := Do(s, step);
    assert t.events == s.events && t.clients == s.clients && t.offline == s.offline;
    forall c | c in s.conns
      ensures c in t.conns && t.conns[c].user == s.conns[c].user && (s.conns[c].registered ==> t.conns[c].registered)
    {
    }
  }

  lemma TakeTable(s: State)
    requires Inv(s) && Enabled(s, Take)
    ensures TableOk(Do(s, Take))
  {
    hide Live, OfflineCalls, AccountsOk, LifeOk, PcOk, AddClient, DropClient, Everyone, InTable;
    Snoc(s.events, Took(s.queue[0]));
  }

  /** Which connections are live after a step. */
  lemma LiveStep(s: State, step: Step, c: nat)
    requires Inv(s) && Enabled(s, step) && c in s.conns
    requires step.SendDirect? ==> !Faulty(s, step)
    ensures c in Do(s, step).conns && Do(s, step).conns[c].user == s.conns[c].user
    ensures IsLive(Do(s, step), c) <==>
            if step == Register(c) then true
            else IsLive(s, c) && !(step.Unregister? && step.c == c)
  {
    hide Live, OfflineCalls, AccountsOk, LifeOk, PcOk, TableOk, AddClient, DropClient, Everyone, InTable, GoesOffline;
    EventsOf(s, step);
    NoPanicStep(s, step);
    match step {
      case Register(d) => Snoc(s.events, Joined(d, s.conns[d].user));
      case Unregister(d, _) => Snoc(s.events, Left(d, s.conns[d].user));
      case Take => Snoc(s.events, Took(s.queue[0]));
      case _ =>
    }
  }

  /** The connection a step writes to. */
  predicate Writes(step: Step, c: nat) {
    match step
    case Accept(d, _) => d == c
    case SendDirect(d, _) => d == c
    case Register(d) => d == c
    case Start(d) => d == c
    case OfferTo(d) => d == c
    case CloseOne(d) => d == c
    case TakeFrame(d) => d == c
    case Quit(d, _) => d == c
    case Unregister(d, _) => d == c
    case CloseSocket(d, _) => d == c
    case _ => false
  }

  lemma LifeOther(s: State, step: Step, c: nat)
    requires Enabled(s, step) && c in s.conns && !Writes(step, c) && !Do(s, step).panicked
    requires step.Shutdown? ==> (c in Everyone(s.clients) <==> IsLive(s, c))
    requires LifeFields(s.conns[c], IsLive(s, c), ShutBy(s.pc, c))
    ensures c in Do(s, step).conns && LifeFields(Do(s, step).conns[c], IsLive(s, c), ShutBy(Do(s, step).pc, c))
  {
    hide Live, AddClient, DropClient, GoesOffline, InTable, IsLive, Everyone;
  }

  lemma LifeOwn(s: State, step: Step, c: nat)
    requires Enabled(s, step) && c in s.conns && Writes(step, c) && !step.Register? && !step.Unregister?
    requires !Do(s, step).panicked
    requires step.OfferTo? || step.CloseOne? ==> IsLive(s, c)
    requires LifeFields(s.conns[c], IsLive(s, c), ShutBy(s.pc, c))
    ensures c in Do(s, step).conns && LifeFields(Do(s, step).conns[c], IsLive(s, c), ShutBy(Do(s, step).pc, c))
  {
    hide Live, AddClient, DropClient, GoesOffline, InTable, IsLive, Everyone;
  }

  lemma LifeEnds(s: State, step: Step, c: nat)
    requires Enabled(s, step) && c in s.conns && Writes(step, c) && (step.Register? || step.Unregister?)
    requires !Do(s, step).panicked
    requires step.Unregister? ==> IsLive(s, c) && InTable(s.clients, c, s.conns[c].user)
    requires LifeFields(s.conns[c], IsLive(s, c), ShutBy(s.pc, c))
    ensures c in Do(s, step).conns && LifeFields(Do(s, step).conns[c], step.Register?, ShutBy(Do(s, step).pc, c))
  {
    hide Live, AddClient, DropClient, GoesOffline, InTable, IsLive, Everyone;
  }

  lemma LifeStep(s: State, step: Step, c: nat)
    requires Inv(s) && Enabled(s, step) && c in s.conns
    requires step.SendDirect? ==> !Faulty(s, step)
    ensures c in Do(s, step).conns && LifeOk(Do(s, step), c)
  {
    LiveStep(s, step, c);
    NoPanicStep(s, step);
    InvParts(s);
    hide Inv, Do, Live, LifeFields, ShutBy, IsLive, TableOk, AccountsOk, InTable, Everyone, AddClient, DropClient, GoesOffline;
    if !Writes(step, c) {
      if step.Shutdown? { EveryoneLive(s, c); }
      LifeOther(s, step, c);
    } else if step.Register? || step.Unregister? {
      if step.Unregister? { UnregisterIsLive(s, c, step.who); }
      LifeEnds(s, step, c);
    } else {
      LifeOwn(s, step, c);
    }
  }

  lemma EveryoneLive(s: State, c: nat)
    requires TableOk(s)
    ensures c in Everyone(s.clients) ==> IsLive(s, c)
    ensures IsLive(s, c) ==> c in Everyone(s.clients)
  {
    hide Live, OfflineCalls;
    if c in Everyone(s.clients) {
      var u :| u in s.clients && c in s.clients[u];
      assert InTable(s.clients, c, u);
      assert (c, u) in Live(s.events);
    }
    if IsLive(s, c) { assert InTable(s.clients, c, s.conns[c].user); }
  }

  // ---------------------------------------------------------------- accounts

  lemma OffersSnoc(offers: seq<Offer>, o: Offer)
    ensures Broadcasts(offers + [o]) == Broadcasts(offers) + if o.direct then [] else [o.data]
    ensures Accepted(offers + [o]) == Accepted(offers) + if o.backlog < SEND_BUFFER then [o.data] else []
  {
    assert (offers + [o])[..|offers|] == offers;
  }

  /** The buffer side of the accounts: what was accepted is what was taken and what still waits. */
  ghost predicate BufferOk(x: Conn) {
    && |x.buffer| <= SEND_BUFFER
    && Accepted(x.offers) == x.taken + x.buffer
    && (forall i :: 0 <= i < |x.offers| ==> x.offers[i].backlog <= SEND_BUFFER)
  }

  lemma OfferBuffer(x: Conn, data: string, direct: bool)
    requires BufferOk(x)
    ensures BufferOk(x.Try(data, direct))
  {
    OffersSnoc(x.offers, Offer(data, |x.buffer|, direct));
    hide Accepted;
    assert x.taken + x.buffer + [data] == x.taken + (x.buffer + [data]);
    assert x.taken + x.buffer + [] == x.taken + x.buffer;
  }

  lemma TakeBuffer(x: Conn)
    requires BufferOk(x) && x.buffer != []
    ensures BufferOk(x.(taken := x.taken + [x.buffer[0]], buffer := x.buffer[1..]))
  {
    hide Accepted;
    assert x.taken + x.buffer == x.taken + [x.buffer[0]] + x.buffer[1..];
  }

  lemma BufferStep(s: State, step: Step, c: nat)
    requires Inv(s) && Enabled(s, step) && c in s.conns
    requires step.SendDirect? ==> !Faulty(s, step)
    ensures c in Do(s, step).conns && BufferOk(Do(s, step).conns[c])
  {
    hide *;
    InvParts(s);
    AccountsSplit(s, c);
    NoPanicStep(s, step);
    FieldEffect(s, step, c);
    var x := s.conns[c];
    if step == OfferTo(c) {
      OfferBuffer(x, s.pc.data, false);
      BufferFields(x.Try(s.pc.data, false), Do(s, step).conns[c]);
    } else if step.SendDirect? && step.c == c {
      OfferBuffer(x, step.data, true);
      BufferFields(x.Try(step.data, true), Do(s, step).conns[c]);
    } else if step == TakeFrame(c) {
      TakeBuffer(x);
      BufferFields(x.(taken := x.taken + [x.buffer[0]], buffer := x.buffer[1..]), Do(s, step).conns[c]);
    } else {
      BufferFields(x, Do(s, step).conns[c]);
    }
  }

  lemma BufferFields(x: Conn, y: Conn)
    requires BufferOk(x) && x.buffer == y.buffer && x.offers == y.offers && x.taken == y.taken
    ensures BufferOk(y)
  {
    hide Accepted;
  }

  lemma ConnKept(s: State, step: Step, c: nat)
    requires Enabled(s, step) && c in s.conns && !Do(s, step).panicked && !Writes(step, c)
    ensures c in Do(s, step).conns && Do(s, step).conns[c] == s.conns[c]
    ensures step != OfferTo(c) && step != TakeFrame(c) && !(step.SendDirect? && step.c == c)
  {
    hide InTable, DropClient, AddClient, GoesOffline, Everyone;
  }

  lemma OwnFields(s: State, step: Step, c: nat)
    requires Enabled(s, step) && c in s.conns && !Do(s, step).panicked && Writes(step, c)
    ensures c in Do(s, step).conns && Do(s, step).conns[c].user == s.conns[c].user
    ensures var x, y := s.conns[c], Do(s, step).conns[c];
            if step == OfferTo(c) then
              s.pc.Delivering? && y.offers == x.Try(s.pc.data, false).offers && y.taken == x.Try(s.pc.data, false).taken
              && y.buffer == x.Try(s.pc.data, false).buffer
            else if step.SendDirect? && step.c == c then
              y.offers == x.Try(step.data, true).offers && y.taken == x.Try(step.data, true).taken && y.buffer == x.Try(step.data, true).buffer
            else if step == TakeFrame(c) then
              x.buffer != [] && y.offers == x.offers && y.taken == x.taken + [x.buffer[0]] && y.buffer == x.buffer[1..]
            else y.offers == x.offers && y.taken == x.taken && y.buffer == x.buffer
  {
    hide InTable, DropClient, AddClient, GoesOffline, Everyone;
    match step {
      case OfferTo(_) =>
      case TakeFrame(_) =>
      case SendDirect(_, _) =>
      case Unregister(_, _) =>
      case _ =>
    }
  }

  /** What a step does to one connection's channel and records. */
  lemma FieldEffect(s: State, step: Step, c: nat)
    requires Enabled(s, step) && c in s.conns && !Do(s, step).panicked
    ensures c in Do(s, step).conns && Do(s, step).conns[c].user == s.conns[c].user
    ensures var x, y := s.conns[c], Do(s, step).conns[c];
            if step == OfferTo(c) then
              s.pc.Delivering? && y.offers == x.Try(s.pc.data, false).offers && y.taken == x.Try(s.pc.data, false).taken
              && y.buffer == x.Try(s.pc.data, false).buffer
            else if step.SendDirect? && step.c == c then
              y.offers == x.Try(step.data, true).offers && y.taken == x.Try(step.data, true).taken && y.buffer == x.Try(step.data, true).buffer
            else if step == TakeFrame(c) then
              x.buffer != [] && y.offers == x.offers && y.taken == x.taken + [x.buffer[0]] && y.buffer == x.buffer[1..]
            else y.offers == x.offers && y.taken == x.taken && y.buffer == x.buffer
  {
    if Writes(step, c) {
      OwnFields(s, step, c);
    } else {
      ConnKept(s, step, c);
    }
    hide *;
  }

  /** What a step does to the hub's own place. */
  lemma PcEffect(s: State, step: Step)
    requires Enabled(s, step) && !Do(s, step).panicked
    ensures Do(s, step).pc == s.pc || step.Take? || step.OfferTo? || step.NextTarget? || step.EndDelivery?
            || step.Shutdown? || step.CloseOne? || step.EndShutdown?
    ensures step.OfferTo? ==> s.pc.Delivering? && step.c in s.pc.pending && Do(s, step).pc == s.pc.(pending := s.pc.pending - {step.c})
    ensures step.EndDelivery? || step.Shutdown? || step.CloseOne? || step.EndShutdown? ==> !Do(s, step).pc.Delivering?
    ensures step.Shutdown? || step.CloseOne? || step.EndShutdown? ==> !s.pc.Delivering?
    ensures step.Register? || step.Unregister? ==> s.pc.Selecting?
  {
    hide InTable, DropClient, AddClient, GoesOffline, Everyone;
  }

  /** The addressing side: offered plus owed is everything addressed. */
  ghost predicate AddressOk(s: State, c: nat)
    requires c in s.conns
  {
    Broadcasts(s.conns[c].offers) + Times(if s.pc.Delivering? then s.pc.data else "", OwedCopies(s, c))
    == AddressedTo(s.events, c, s.conns[c].user)
  }

  lemma AccountsSplit(s: State, c: nat)
    requires c in s.conns
    ensures AccountsOk(s, c) <==> BufferOk(s.conns[c]) && AddressOk(s, c)
  {
    hide Accepted, Broadcasts, AddressedTo, Times, OwedCopies;
  }

  /** Outside a delivery nothing is owed. */
  lemma NothingOwed(s: State, c: nat)
    requires c in s.conns && !s.pc.Delivering?
    ensures AddressOk(s, c) <==> Broadcasts(s.conns[c].offers) == AddressedTo(s.events, c, s.conns[c].user)
  {
    hide Broadcasts, AddressedTo;
    assert Broadcasts(s.conns[c].offers) + [] == Broadcasts(s.conns[c].offers);
  }

  lemma TakeAddress(s: State, c: nat)
    requires Inv(s) && Enabled(s, Take) && c in s.conns
    ensures AddressOk(Do(s, Take), c)
  {
    assert AccountsOk(s, c);
    AccountsSplit(s, c);
    NothingOwed(s, c);
    EveryoneLive(s, c);
    LiveStep(s, Take, c);
    AddressedSnoc(s.events, Took(s.queue[0]), c, s.conns[c].user);
    hide Live, OfflineCalls, LifeOk, PcOk, TableOk, Everyone, AddressedTo, Inv, AccountsOk, Broadcasts, Times;
    assert Broadcasts(s.conns[c].offers) + [] == Broadcasts(s.conns[c].offers);
    NoTimes(s.queue[0].data);
  }

  lemma NoTimes(data: string)
    ensures Times(data, 0) == []
  {
  }

  lemma OfferAddress(s: State, d: nat, c: nat)
    requires Inv(s) && Enabled(s, OfferTo(d)) && c in s.conns
    ensures c in Do(s, OfferTo(d)).conns && AddressOk(Do(s, OfferTo(d)), c)
  {
    hide *;
    var t := Do(s, OfferTo(d));
    InvParts(s);
    AccountsSplit(s, c);
    NoPanicStep(s, OfferTo(d));
    FieldEffect(s, OfferTo(d), c);
    PcEffect(s, OfferTo(d));
    LiveStep(s, OfferTo(d), c);
    EventsOf(s, OfferTo(d));
    NoEvent(s, OfferTo(d));
    if c == d {
      PendingLive(s, c);
      TryBroadcasts(s.conns[c], s.pc.data, false);
    }
    OfferKeepsAddress(s, t, d, c);
  }

  lemma NoEvent(s: State, step: Step)
    requires Enabled(s, step) && !step.Register? && !step.Unregister? && !step.Take?
    ensures EventOf(s, step) == []
  {
  }

  lemma PendingLive(s: State, c: nat)
    requires PcOk(s) && s.pc.Delivering? && c in s.pc.pending
    ensures IsLive(s, c)
  {
  }

  lemma TryBroadcasts(x: Conn, data: string, direct: bool)
    ensures Broadcasts(x.Try(data, direct).offers) == Broadcasts(x.offers) + if direct then [] else [data]
  {
    OffersSnoc(x.offers, Offer(data, |x.buffer|, direct));
  }

  lemma OfferKeepsAddress(s: State, t: State, d: nat, c: nat)
    requires c in s.conns && c in t.conns && s.pc.Delivering? && d in s.pc.pending
    requires t.pc == s.pc.(pending := s.pc.pending - {d}) && t.events == s.events + []
    requires t.conns[c].user == s.conns[c].user && (IsLive(t, c) <==> IsLive(s, c))
    requires c == d ==> IsLive(s, c) && Broadcasts(t.conns[c].offers) == Broadcasts(s.conns[c].offers) + [s.pc.data]
    requires c != d ==> Broadcasts(t.conns[c].offers) == Broadcasts(s.conns[c].offers)
    requires AddressOk(s, c)
    ensures AddressOk(t, c)
  {
    hide Live, AddressedTo, Broadcasts, Multiplicity, IsLive;
    assert t.events == s.events;
    if c == d { TimesStep(Broadcasts(s.conns[c].offers), s.pc.data, OwedCopies(s, c)); }
  }

  lemma TimesStep(before: seq<string>, data: string, k: nat)
    requires k > 0
    ensures before + Times(data, k) == before + [data] + Times(data, k - 1)
  {
  }

  lemma NextAddress(s: State, c: nat)
    requires Inv(s) && Enabled(s, NextTarget) && c in s.conns
    ensures AddressOk(Do(s, NextTarget), c)
  {
    LiveStep(s, NextTarget, c);
    hide Inv;
    InvParts(s);
    AccountsSplit(s, c);
    hide AccountsOk, LifeOk, PcOk, Live, OfflineCalls;
    var u := s.pc.rest[0];
    assert InTable(s.clients, c, u) <==> (c, u) in Live(s.events);
    assert (c, u) in Live(s.events) ==> s.conns[c].user == u;
    hide TableOk;
    NextKeepsOwed(s, c);
    hide OwedCopies, AddressedTo, Broadcasts, Times, Everyone;
  }

  lemma NextKeepsOwed(s: State, c: nat)
    requires Enabled(s, NextTarget) && c in s.conns
    requires InTable(s.clients, c, s.pc.rest[0]) <==> (c, s.pc.rest[0]) in Live(s.events)
    requires (c, s.pc.rest[0]) in Live(s.events) ==> s.conns[c].user == s.pc.rest[0]
    ensures OwedCopies(Do(s, NextTarget), c) == OwedCopies(s, c)
  {
    hide Live;
  }

  lemma QuietAddress(s: State, step: Step, c: nat)
    requires Inv(s) && Enabled(s, step) && c in s.conns
    requires step.SendDirect? ==> !Faulty(s, step)
    requires !step.Take? && !step.OfferTo? && !step.NextTarget?
    ensures c in Do(s, step).conns && AddressOk(Do(s, step), c)
  {
    hide *;
    var t := Do(s, step);
    InvParts(s);
    AccountsSplit(s, c);
    NoPanicStep(s, step);
    FieldEffect(s, step, c);
    PcEffect(s, step);
    LiveStep(s, step, c);
    SameAddressed(s, step, c);
    if step.SendDirect? && step.c == c { TryBroadcasts(s.conns[c], step.data, true); }
    assert Broadcasts(s.conns[c].offers) + [] == Broadcasts(s.conns[c].offers);
    if s.pc.Delivering? && !step.EndDelivery? {
      SameOwed(s, t, c);
    } else {
      if step.EndDelivery? { DeliveryDone(s); LastOwed(s, c); } else { NothingOwed(s, c); }
      NothingOwed(t, c);
    }
  }

  lemma DeliveryDone(s: State)
    requires Enabled(s, EndDelivery)
    ensures s.pc.Delivering? && s.pc.pending == {} && s.pc.rest == []
  {
  }

  /** Joins and departures address nothing to anybody. */
  lemma SameAddressed(s: State, step: Step, c: nat)
    requires Inv(s) && Enabled(s, step) && c in s.conns && !step.Take?
    requires step.SendDirect? ==> !Faulty(s, step)
    ensures AddressedTo(Do(s, step).events, c, s.conns[c].user) == AddressedTo(s.events, c, s.conns[c].user)
  {
    EventsOf(s, step);
    hide Live, AddressedTo, Inv, Do;
    var user, before := s.conns[c].user, AddressedTo(s.events, c, s.conns[c].user);
    assert before + [] == before;
    if step.Register? || step.Unregister? {
      AddressedSnoc(s.events, EventOf(s, step)[0], c, user);
    } else {
      assert s.events + [] == s.events;
    }
  }

  lemma SameOwed(s: State, t: State, c: nat)
    requires c in s.conns && c in t.conns && t.pc == s.pc && s.pc.Delivering?
    requires t.conns[c].user == s.conns[c].user && Broadcasts(t.conns[c].offers) == Broadcasts(s.conns[c].offers)
    requires IsLive(t, c) <==> IsLive(s, c)
    requires AddressedTo(t.events, c, s.conns[c].user) == AddressedTo(s.events, c, s.conns[c].user)
    requires AddressOk(s, c)
    ensures AddressOk(t, c)
  {
    hide AddressedTo, Broadcasts, Live, IsLive, Times, Multiplicity;
  }

  lemma LastOwed(s: State, c: nat)
    requires c in s.conns && s.pc.Delivering? && s.pc.pending == {} && s.pc.rest == []
    ensures AddressOk(s, c) <==> Broadcasts(s.conns[c].offers) == AddressedTo(s.events, c, s.conns[c].user)
  {
    hide Broadcasts, AddressedTo, Live;
    assert Broadcasts(s.conns[c].offers) + [] == Broadcasts(s.conns[c].offers);
  }

  lemma AccountsStep(s: State, step: Step, c: nat)
    requires Inv(s) && Enabled(s, step) && c in s.conns
    requires step.SendDirect? ==> !Faulty(s, step)
    ensures c in Do(s, step).conns && AccountsOk(Do(s, step), c)
  {
    BufferStep(s, step, c);
    match step {
      case Take => TakeAddress(s, c);
      case OfferTo(d) => OfferAddress(s, d, c);
      case NextTarget => NextAddress(s, c);
      case _ => QuietAddress(s, step, c);
    }
    AccountsSplit(Do(s, step), c);
    hide *;
  }

  /** A connection that never joined was never addressed. */
  lemma {:induction false} NeverJoined(events: seq<Event>, c: nat, user: string)
    requires forall e :: e in events && e.Joined? ==> e.c != c
    ensures (c, user) !in Live(events) && AddressedTo(events, c, user) == []
  {
    if events != [] { NeverJoined(events[..|events| - 1], c, user); }
  }

  lemma PcStep(s: State, step: Step)
    requires Inv(s) && Enabled(s, step)
    requires step.SendDirect? ==> !Faulty(s, step)
    ensures PcOk(Do(s, step))
  {
    hide Live, OfflineCalls, LifeOk, AddressedTo, AccountsOk, AddClient, DropClient, Everyone, GoesOffline;
    NoPanicStep(s, step);
    var t := Do(s, step);
    if t.pc.Delivering? || t.pc.ClosingAll? {
      forall c | c in t.pc.pending ensures IsLive(t, c) {
        if step.Take? || step.Shutdown? { EveryoneLive(s, c); }
        if step.NextTarget? { InTableLive(s, c, s.pc.rest[0]); }
        LiveStep(s, step, c);
      }
    }
  }

  lemma InTableLive(s: State, c: nat, user: string)
    requires TableOk(s) && InTable(s.clients, c, user)
    ensures IsLive(s, c)
  {
    hide Live, OfflineCalls;
    assert (c, user) in Live(s.events);
  }

  lemma AcceptStep(s: State, c: nat, user: string)
    requires Inv(s) && Enabled(s, Accept(c, user))
    ensures LifeOk(Do(s, Accept(c, user)), c) && AccountsOk(Do(s, Accept(c, user)), c)
  {
    hide OfflineCalls, LifeOk, AccountsOk;
    var t := Do(s, Accept(c, user));
    NeverJoined(s.events, c, user);
    hide Live, AddressedTo;
    assert LifeOk(t, c) by { FreshLife(t, c); }
    assert AccountsOk(t, c) by { FreshAccounts(t, c); }
  }

  lemma FreshLife(s: State, c: nat)
    requires c in s.conns && s.conns[c] == Conn(s.conns[c].user, false, [], false, false, NotStarted, NotStarted, false, [], [])
    requires (c, s.conns[c].user) !in Live(s.events)
    ensures LifeOk(s, c)
  {
  }

  lemma FreshAccounts(s: State, c: nat)
    requires c in s.conns && s.conns[c] == Conn(s.conns[c].user, false, [], false, false, NotStarted, NotStarted, false, [], [])
    requires (c, s.conns[c].user) !in Live(s.events) && AddressedTo(s.events, c, s.conns[c].user) == []
    ensures AccountsOk(s, c)
  {
  }

  lemma InvStep(s: State, step: Step)
    requires Inv(s) && Enabled(s, step)
    ensures Inv(Do(s, step))
  {
    hide LifeOk, AccountsOk, TableOk, PcOk, AddClient, DropClient, Everyone, InTable, GoesOffline;
    if Faulty(s, step) {
      PanicOnly(s, step);
      PanicKeepsInv(s);
      return;
    }
    NoPanicStep(s, step);
    TableStep(s, step);
    PcStep(s, step);
    EventsOf(s, step);
    var t := Do(s, step);
    forall c | c in t.conns ensures LifeOk(t, c) && AccountsOk(t, c) {
      if c in s.conns {
        LifeStep(s, step, c);
        AccountsStep(s, step, c);
      } else {
        AcceptStep(s, step.c, step.user);
      }
    }
    forall e | e in t.events && e.Joined? ensures e.c in t.conns {}
  }

  /** Every run of hub and pumps keeps the invariant. */
  lemma {:induction false} RunInvariant(steps: seq<Step>)
    requires Valid(steps)
    ensures Inv(Run(steps))
  {
    hide Do, Enabled, LifeOk, AccountsOk;
    if steps != [] {
      RunInvariant(steps[..|steps| - 1]);
      InvStep(Run(steps[..|steps| - 1]), steps[|steps| - 1]);
    }
  }

  // ---------------------------------------------------------------- what every run guarantees

  /**
   The hub never sends on a closed channel and never closes one twice, in any interleaving,
   shutdown included: what panics is exactly a direct send that finds its channel closed.
   */
  lemma NeverPanics(steps: seq<Step>)
    requires Valid(steps)
    ensures forall step :: Enabled(Run(steps), step) ==> (Do(Run(steps), step).panicked <==> Faulty(Run(steps), step))
    ensures Run(steps).panicked ==> steps != [] && Faulty(Run(steps[..|steps| - 1]), steps[|steps| - 1])
  {
    RunInvariant(steps);
    if steps != [] { RunInvariant(steps[..|steps| - 1]); }
    hide Inv, Enabled, Do, Faulty;
    forall step | Enabled(Run(steps), step) ensures Do(Run(steps), step).panicked <==> Faulty(Run(steps), step) {
      PanicsIff(Run(steps), step);
    }
    if steps != [] { PanicsIff(Run(steps[..|steps| - 1]), steps[|steps| - 1]); }
  }

  lemma PanicsIff(s: State, step: Step)
    requires Inv(s) && Enabled(s, step)
    ensures Do(s, step).panicked <==> Faulty(s, step)
  {
    hide Inv, Enabled, Do, Faulty;
    if Faulty(s, step) { PanicOnly(s, step); } else { NoPanicStep(s, step); }
  }

  /**
   Conn.Send panics exactly when the hub has let the connection go, or has shut down and closed
   its channel; otherwise it queues the frame if and only if there is room, and touches nothing else.
   */
  lemma DirectSendExactly(steps: seq<Step>, c: nat, data: string)
    requires Valid(steps) && Enabled(Run(steps), SendDirect(c, data))
    ensures c in Run(steps).conns
    ensures var s, t := Run(steps), Do(Run(steps), SendDirect(c, data));
            var x := s.conns[c];
            && (t.panicked <==> x.registered && (IsLive(s, c) ==> ShutBy(s.pc, c)))
            && (!t.panicked ==>
                  && t == s.(conns := t.conns) && (forall d :: d in t.conns <==> d in s.conns)
                  && (forall d :: d in s.conns && d != c ==> t.conns[d] == s.conns[d])
                  && t.conns[c] == x.(offers := t.conns[c].offers, buffer := t.conns[c].buffer)
                  && (t.conns[c].buffer == if |x.buffer| < 64 then x.buffer + [data] else x.buffer))
  {
    hide Live, OfflineCalls, AccountsOk, TableOk, PcOk, IsLive, Valid, Run;
    RunInvariant(steps);
    assert LifeOk(Run(steps), c);
  }

  /** The connections in the table with their users, as one flat set. */
  function Flat(clients: Clients): set<(nat, string)> {
    set u, c | u in clients && c in clients[u] :: (c, u)
  }

  /** The table is the flat set of live connections grouped by user, and keeps no empty group. */
  lemma TableRefinesFlatSet(steps: seq<Step>)
    requires Valid(steps)
    ensures Flat(Run(steps).clients) == Live(Run(steps).events)
    ensures forall u :: u in Run(steps).clients <==> UserLive(Live(Run(steps).events), u)
  {
    hide Live, OfflineCalls, LifeOk, AccountsOk, PcOk, Valid, Run;
    RunInvariant(steps);
    var s := Run(steps);
    forall p ensures p in Flat(s.clients) <==> p in Live(s.events) {
      assert InTable(s.clients, p.0, p.1) <==> (p.0, p.1) in Live(s.events);
      assert p == (p.0, p.1);
    }
    forall u ensures u in s.clients <==> UserLive(Live(s.events), u) {
      if u in s.clients {
        var c :| c in s.clients[u];
        assert InTable(s.clients, c, u);
        assert (c, u) in Live(s.events);
      }
      if UserLive(Live(s.events), u) {
        var p :| p in Live(s.events) && p.1 == u;
        assert p == (p.0, u) && InTable(s.clients, p.0, u);
      }
    }
  }

  /** The offline callback starts exactly when a user's last live connection is unregistered. */
  lemma OfflineExactly(s: State, step: Step, user: string)
    requires Inv(s) && Enabled(s, step)
    ensures var t := Do(s, step);
            t.offline == s.offline + [user] <==>
            step.Unregister? && UserLive(Live(s.events), user) && !UserLive(Live(t.events), user)
    ensures Do(s, step).offline == s.offline || exists u :: Do(s, step).offline == s.offline + [u]
  {
    hide LifeOk, AccountsOk, PcOk, AddClient, Everyone, Live, OfflineCalls;
    var t := Do(s, step);
    InvParts(s);
    if step.Unregister? {
      UnregisterIsLive(s, step.c, step.who);
      DropEffect(s, step.c, step.who);
      hide Do, Enabled;
      var c, u := step.c, s.conns[step.c].user;
      Snoc(s.events, Left(c, u));
      LastConnection(s.clients, Live(s.events), c, u);
      assert (c, u) in Live(s.events);
      if user != u && UserLive(Live(s.events), user) {
        var p :| p in Live(s.events) && p.1 == user;
        assert p in Live(t.events);
      }
      assert s.offline + [u] == s.offline + [user] <==> u == user by {
        assert (s.offline + [u])[|s.offline|] == u && (s.offline + [user])[|s.offline|] == user;
      }
      assert |s.offline + [user]| != |s.offline + []|;
    } else {
      PanicsIff(s, step);
      assert t.offline == s.offline;
      assert |s.offline + [user]| != |s.offline|;
    }
  }

  /** Where the accepted frames sit among the offers. */
  function KeptAt(offers: seq<Offer>): (at: seq<nat>)
    ensures forall k :: 0 <= k < |at| ==> at[k] < |offers|
  {
    if offers == [] then []
    else
      var n := |offers| - 1;
      KeptAt(offers[..n]) + if offers[n].backlog < SEND_BUFFER then [n] else []
  }

  /** Accepted frames are the offered ones, in order, minus those that met a full channel. */
  lemma {:induction false} AcceptedInOrder(offers: seq<Offer>)
    ensures var at := KeptAt(offers);
            && |Accepted(offers)| == |at|
            && (forall j, k :: 0 <= j < k < |at| ==> at[j] < at[k])
            && (forall k :: 0 <= k < |at| ==> Accepted(offers)[k] == offers[at[k]].data)
            && (forall i :: 0 <= i < |offers| ==> (i in at <==> offers[i].backlog < 64))
            && |offers| == |Accepted(offers)| + Dropped(offers) == |Broadcasts(offers)| + |Direct(offers)|
  {
    if offers != [] { AcceptedInOrder(offers[..|offers| - 1]); }
  }

  /**
   The accounts of one connection at any moment of any run: frames taken and still buffered
   are, in order, the offered frames that found room; the offers are those of the hub, which are
   all that was addressed once the delivery under way is over, and those of direct sends;
   addressed + direct = taken + buffered + dropped; a frame met a backlog of at most 64.
   */
  lemma DeliveryAccounts(steps: seq<Step>, c: nat)
    requires Valid(steps) && c in Run(steps).conns
    ensures var s := Run(steps);
            var x := s.conns[c];
            && |x.buffer| <= 64
            && x.taken + x.buffer == Accepted(x.offers)
            && |Broadcasts(x.offers)| + |Direct(x.offers)| == |x.taken| + |x.buffer| + Dropped(x.offers)
            && Broadcasts(x.offers) <= AddressedTo(s.events, c, x.user)
            && (!s.pc.Delivering? ==> Broadcasts(x.offers) == AddressedTo(s.events, c, x.user))
            && (forall i :: 0 <= i < |x.offers| ==> x.offers[i].backlog <= 64)
  {
    hide *;
    RunInvariant(steps);
    InvParts(Run(steps));
    AccountsFacts(Run(steps), c);
    AcceptedInOrder(Run(steps).conns[c].offers);
  }

  lemma AccountsFacts(s: State, c: nat)
    requires c in s.conns && AccountsOk(s, c)
    ensures var x := s.conns[c];
            && |x.buffer| <= 64
            && x.taken + x.buffer == Accepted(x.offers)
            && Broadcasts(x.offers) <= AddressedTo(s.events, c, x.user)
            && (!s.pc.Delivering? ==> Broadcasts(x.offers) == AddressedTo(s.events, c, x.user))
            && (forall i :: 0 <= i < |x.offers| ==> x.offers[i].backlog <= 64)
  {
    hide Broadcasts, AddressedTo, Accepted, Live;
    if !s.pc.Delivering? { assert Broadcasts(s.conns[c].offers) + [] == Broadcasts(s.conns[c].offers); }
  }

  /** The frames of these offers. */
  function DataOf(offers: seq<Offer>): (r: seq<string>)
    ensures |r| == |offers| && forall i :: 0 <= i < |r| ==> r[i] == offers[i].data
  {
    seq(|offers|, i requires 0 <= i < |offers| => offers[i].data)
  }

  /** A channel of room for 64 frames keeps the first of what it is given. */
  function FirstOf(frames: seq<string>): seq<string> {
    if |frames| <= 64 then frames else frames[..64]
  }

  lemma OneOffer(x: Conn, data: string, direct: bool)
    ensures x.Try(data, direct).offers == x.offers + [Offer(data, |x.buffer|, direct)]
    ensures x.Try(data, direct).taken == x.taken
    ensures |x.buffer| < 64 ==> x.Try(data, direct).buffer == x.buffer + [data]
    ensures |x.buffer| >= 64 ==> x.Try(data, direct).buffer == x.buffer
  {
  }

  lemma FirstOfSnoc(start: seq<string>, frames: seq<string>, data: string)
    requires |start| <= 64
    ensures var before := FirstOf(start + frames);
            FirstOf(start + (frames + [data])) == if |before| < 64 then before + [data] else before
  {
    var all := start + frames;
    assert start + (frames + [data]) == all + [data];
    if |all| >= 64 { assert (all + [data])[..64] == all[..64]; }
  }

  /** One step that is not the write pump's: the channel gains at most the frame it is offered. */
  lemma QueueStep(s: State, step: Step, c: nat)
    requires Inv(s) && Enabled(s, step) && c in s.conns && step != TakeFrame(c)
    ensures c in Do(s, step).conns
    ensures var x, y := s.conns[c], Do(s, step).conns[c];
            || (y.offers == x.offers && y.buffer == x.buffer)
            || (exists o: Offer :: y.offers == x.offers + [o] && y.buffer == if |x.buffer| < 64 then x.buffer + [o.data] else x.buffer)
  {
    hide Inv, Do, Enabled;
    if Faulty(s, step) {
      PanicOnly(s, step);
      return;
    }
    NoPanicStep(s, step);
    FieldEffect(s, step, c);
    var x, y := s.conns[c], Do(s, step).conns[c];
    if step == OfferTo(c) {
      OneOffer(x, s.pc.data, false);
      assert y.offers == x.offers + [Offer(s.pc.data, |x.buffer|, false)];
    } else if step.SendDirect? && step.c == c {
      OneOffer(x, step.data, true);
      assert y.offers == x.offers + [Offer(step.data, |x.buffer|, true)];
    }
  }

  /**
   While the write pump takes nothing, a channel holds what it held followed by what it is
   offered, up to 64 frames: an idle connection keeps 64 frames and loses the 65th.
   */
  lemma {:induction false} KeepsFirst64(steps: seq<Step>, more: seq<Step>, c: nat)
    requires Valid(steps) && Valid(steps + more) && c in Run(steps).conns
    requires forall i :: 0 <= i < |more| ==> more[i] != TakeFrame(c)
    ensures c in Run(steps + more).conns
    ensures var x, y := Run(steps).conns[c], Run(steps + more).conns[c];
            && x.offers <= y.offers
            && y.buffer == FirstOf(x.buffer + DataOf(y.offers[|x.offers|..]))
  {
    DeliveryAccounts(steps, c);
    var x := Run(steps).conns[c];
    if more == [] {
      assert steps + more == steps;
      assert x.buffer + DataOf(x.offers[|x.offers|..]) == x.buffer;
    } else {
      var n := |more| - 1;
      assert (steps + more)[..|steps + more| - 1] == steps + more[..n];
      assert (steps + more)[|steps + more| - 1] == more[n];
      RunLast(steps + more);
      KeepsFirst64(steps, more[..n], c);
      RunInvariant(steps + more[..n]);
      QueueStep(Run(steps + more[..n]), more[n], c);
      hide Run, Valid, Inv, Do, Enabled;
      NextFirst(x, Run(steps + more[..n]).conns[c], Run(steps + more).conns[c]);
    }
  }

  lemma NextFirst(x: Conn, y: Conn, z: Conn)
    requires |x.buffer| <= 64 && x.offers <= y.offers
    requires y.buffer == FirstOf(x.buffer + DataOf(y.offers[|x.offers|..]))
    requires || (z.offers == y.offers && z.buffer == y.buffer)
             || (exists o: Offer :: z.offers == y.offers + [o] && z.buffer == if |y.buffer| < 64 then y.buffer + [o.data] else y.buffer)
    ensures x.offers <= z.offers && z.buffer == FirstOf(x.buffer + DataOf(z.offers[|x.offers|..]))
  {
    if z.offers != y.offers {
      var o: Offer :| z.offers == y.offers + [o] && z.buffer == if |y.buffer| < 64 then y.buffer + [o.data] else y.buffer;
      assert z.offers[|x.offers|..] == y.offers[|x.offers|..] + [o];
      assert DataOf(z.offers[|x.offers|..]) == DataOf(y.offers[|x.offers|..]) + [o.data];
      FirstOfSnoc(x.buffer, DataOf(y.offers[|x.offers|..]), o.data);
    }
  }

  /** The broadcasts a schedule enqueues, and those the hub has received. */
  function Enqueued(steps: seq<Step>): seq<Outbound> {
    if steps == [] then []
    else Enqueued(steps[..|steps| - 1]) + if steps[|steps| - 1].Enqueue? then [steps[|steps| - 1].out] else []
  }

  function Received(events: seq<Event>): seq<Outbound> {
    if events == [] then []
    else Received(events[..|events| - 1]) + if events[|events| - 1].Took? then [events[|events| - 1].out] else []
  }

  lemma ReceivedSnoc(events: seq<Event>, more: seq<Event>)
    requires |more| <= 1
    ensures Received(events + more) == Received(events) + if more != [] && more[0].Took? then [more[0].out] else []
  {
    if more == [] {
      assert events + more == events;
    } else {
      assert (events + more)[..|events|] == events;
    }
  }

  lemma QueueEffect(s: State, step: Step)
    requires Enabled(s, step)
    ensures Do(s, step).queue == if step.Enqueue? then s.queue + [step.out] else if step.Take? then s.queue[1..] else s.queue
    ensures step.Take? ==> s.queue != []
  {
    hide InTable, DropClient, AddClient, GoesOffline, Everyone;
  }

  lemma Conserved(s: State, step: Step)
    requires Inv(s) && Enabled(s, step)
    ensures Received(Do(s, step).events) + Do(s, step).queue ==
            Received(s.events) + s.queue + if step.Enqueue? then [step.out] else []
  {
    QueueEffect(s, step);
    EventsFrom(s, step);
    TakenEvent(s, step);
    hide *;
    ReceivedSnoc(s.events, EventOf(s, step));
    var got := Received(s.events);
    if step.Take? {
      Moved(got, s.queue);
    } else {
      assert got + [] == got;
      if step.Enqueue? {
        assert got + (s.queue + [step.out]) == got + s.queue + [step.out];
      } else {
        assert got + s.queue + [] == got + s.queue;
      }
    }
  }

  lemma Moved(got: seq<Outbound>, queue: seq<Outbound>)
    requires queue != []
    ensures got + [queue[0]] + queue[1..] == got + queue + []
  {
  }

  lemma TakenEvent(s: State, step: Step)
    requires Enabled(s, step)
    ensures step.Take? ==> s.queue != [] && EventOf(s, step) == [Took(s.queue[0])]
    ensures !step.Take? && EventOf(s, step) != [] ==> !EventOf(s, step)[0].Took?
  {
  }

  /** Broadcasts are received in the order they were enqueued, and none is lost. */
  lemma {:induction false} BroadcastsInOrder(steps: seq<Step>)
    requires Valid(steps)
    ensures Received(Run(steps).events) + Run(steps).queue == Enqueued(steps)
  {
    if steps != [] {
      RunLast(steps);
      BroadcastsInOrder(steps[..|steps| - 1]);
      RunInvariant(steps[..|steps| - 1]);
      hide Do, Inv, Run, Valid, Received, Enabled;
      Conserved(Run(steps[..|steps| - 1]), steps[|steps| - 1]);
    }
  }

  /** At most 256 broadcasts wait, and only a full queue makes a sender wait. */
  lemma BroadcastRoom(steps: seq<Step>, out: Outbound)
    requires Valid(steps)
    ensures |Run(steps).queue| <= 256
    ensures Enabled(Run(steps), Enqueue(out)) <==> !Run(steps).panicked && |Run(steps).queue| < 256
  {
    RunInvariant(steps);
    hide Run, Valid;
  }

  lemma EventsFrom(s: State, step: Step)
    requires Inv(s) && Enabled(s, step)
    ensures Do(s, step).events == s.events + EventOf(s, step) && |EventOf(s, step)| <= 1
  {
    hide Inv;
    if Faulty(s, step) { PanicOnly(s, step); } else { EventsOf(s, step); }
  }

  /** How many copies of a broadcast its targets ask for: one each time the user is listed, one for everyone if nobody is. */
  lemma {:induction false} CopiesExact(targets: seq<string>, data: string, user: string)
    ensures Multiplicity(targets, user) == multiset(targets)[user]
    ensures Copies(Outbound(targets, data), user) == if |targets| == 0 then 1 else multiset(targets)[user]
  {
    if targets != [] {
      CopiesExact(targets[1..], data, user);
      assert targets == [targets[0]] + targets[1..];
    }
  }

  lemma DirectStep(s: State, step: Step, c: nat)
    requires Enabled(s, step) && !Do(s, step).panicked
    ensures c in s.conns ==>
              && c in Do(s, step).conns
              && Direct(Do(s, step).conns[c].offers) ==
                 Direct(s.conns[c].offers) + if step.SendDirect? && step.c == c then [step.data] else []
    ensures c !in s.conns ==> !(step.SendDirect? && step.c == c)
    ensures c !in s.conns && c in Do(s, step).conns ==> Do(s, step).conns[c].offers == []
  {
    if c in s.conns {
      FieldEffect(s, step, c);
      hide Do, Enabled, Direct;
      var x := s.conns[c];
      assert Direct(x.offers) + [] == Direct(x.offers);
      if step == OfferTo(c) { DirectSnoc(x.offers, Offer(s.pc.data, |x.buffer|, false)); }
      if step.SendDirect? && step.c == c { DirectSnoc(x.offers, Offer(step.data, |x.buffer|, true)); }
    } else {
      hide InTable, DropClient, AddClient, GoesOffline, Everyone;
    }
  }

  lemma DirectSnoc(offers: seq<Offer>, o: Offer)
    ensures Direct(offers + [o]) == Direct(offers) + if o.direct then [o.data] else []
  {
    assert (offers + [o])[..|offers|] == offers;
  }

  /** The direct offers on record are the schedule's direct sends to the connection, in order. */
  lemma {:induction false} DirectAccounts(steps: seq<Step>, c: nat)
    requires Valid(steps) && !Run(steps).panicked
    ensures if c in Run(steps).conns then Direct(Run(steps).conns[c].offers) == SentTo(steps, c) else SentTo(steps, c) == []
  {
    hide Do, Enabled, Direct;
    if steps != [] {
      var n := |steps| - 1;
      RunLast(steps);
      assert !Run(steps[..n]).panicked by { EnabledAlive(Run(steps[..n]), steps[n]); }
      DirectAccounts(steps[..n], c);
      DirectStep(Run(steps[..n]), steps[n], c);
      assert Direct([]) == [] by { DirectNone(); }
    }
  }

  lemma EnabledAlive(s: State, step: Step)
    requires Enabled(s, step)
    ensures !s.panicked
  {
  }

  lemma DirectNone()
    ensures Direct([]) == []
  {
  }

  /** A frame is dropped exactly when it meets a full channel; the record says what it met. */
  lemma DropsOnlyWhenFull(steps: seq<Step>, c: nat)
    requires Valid(steps) && Enabled(Run(steps), OfferTo(c))
    ensures var x := Run(steps).conns[c];
            var y := Do(Run(steps), OfferTo(c)).conns[c];
            && |y.offers| == |x.offers| + 1 && y.offers[|x.offers|].backlog == |x.buffer|
            && Dropped(y.offers) == Dropped(x.offers) + (if |x.buffer| == 64 then 1 else 0)
            && (y.buffer == x.buffer <==> |x.buffer| == 64)
  {
    var s := Run(steps);
    var x := s.conns[c];
    assert |x.buffer| <= 64 by { EnabledConn(s, c); DeliveryAccounts(steps, c); }
    assert !Do(s, OfferTo(c)).panicked by { RunInvariant(steps); NoPanicStep(s, OfferTo(c)); }
    FieldEffect(s, OfferTo(c), c);
    var y := Do(s, OfferTo(c)).conns[c];
    hide Do, Run, Valid, Enabled;
    assert y.offers[..|y.offers| - 1] == x.offers;
    assert |x.buffer + [s.pc.data]| == |x.buffer| + 1;
  }

  lemma EnabledConn(s: State, c: nat)
    requires Enabled(s, OfferTo(c))
    ensures c in s.conns
  {
  }

  /** The hub's place after a step is nearer the end of its delivery or shutdown. */
  predicate Nearer(before: Pc, after: Pc) {
    || after.Selecting? || after.Returned?
    || (before.ClosingAll? && after.ClosingAll? && |after.pending| < |before.pending|)
    || (before.Delivering? && after.Delivering? &&
        (|after.rest| < |before.rest| || (after.rest == before.rest && |after.pending| < |before.pending|)))
  }

  /** The hub itself never blocks inside a delivery or a shutdown, and each such step brings its end nearer. */
  lemma HubNeverBlocks(s: State) returns (step: Step)
    requires Inv(s) && !s.panicked && (s.pc.Delivering? || s.pc.ClosingAll?)
    ensures step.OfferTo? || step.NextTarget? || step.EndDelivery? || step.CloseOne? || step.EndShutdown?
    ensures Enabled(s, step) && Nearer(s.pc, Do(s, step).pc)
  {
    hide Do, Nearer;
    InvParts(s);
    hide Inv;
    if c :| c in s.pc.pending {
      step := if s.pc.Delivering? then OfferTo(c) else CloseOne(c);
      assert IsLive(s, c);
      NoPanicStep(s, step);
      OneLess(s, step, c);
    } else {
      step := if s.pc.ClosingAll? then EndShutdown else if s.pc.rest == [] then EndDelivery else NextTarget;
      NextPlace(s, step);
    }
  }

  lemma OneLess(s: State, step: Step, c: nat)
    requires Enabled(s, step) && !Do(s, step).panicked && (step == OfferTo(c) || step == CloseOne(c))
    ensures Nearer(s.pc, Do(s, step).pc)
  {
    assert |s.pc.pending - {c}| < |s.pc.pending|;
  }

  lemma NextPlace(s: State, step: Step)
    requires Enabled(s, step) && (step.EndShutdown? || step.EndDelivery? || step.NextTarget?)
    ensures Nearer(s.pc, Do(s, step).pc)
  {
  }

  /**
   What waits for whom: a running pump can always end, the write pump can take any waiting frame,
   a pump that has been unregistered can close the socket; registrations, unregistrations and
   broadcasts wait only for the hub to be between two events.
   */
  lemma WhoCanMove(s: State, c: nat, who: Who)
    requires Inv(s) && !s.panicked && c in s.conns
    ensures s.conns[c].Pump(who).Running? ==> Enabled(s, Quit(c, who))
    ensures s.conns[c].writer.Running? && s.conns[c].buffer != [] ==> Enabled(s, TakeFrame(c))
    ensures s.conns[c].Pump(who).ClosingSocket? ==> Enabled(s, CloseSocket(c, who))
    ensures s.conns[c].Pump(who).Unregistering? ==> (Enabled(s, Unregister(c, who)) <==> s.pc == Selecting)
    ensures !s.conns[c].registered ==> (Enabled(s, Register(c)) <==> s.pc == Selecting)
    ensures s.queue != [] ==> (Enabled(s, Take) <==> s.pc == Selecting)
    ensures s.conns[c].registered && s.conns[c].reader == s.conns[c].writer == NotStarted ==> Enabled(s, Start(c))
    ensures Enabled(s, SendDirect(c, "")) && (s.pc == Selecting ==> Enabled(s, Shutdown))
  {
    hide Inv;
  }

  /** While the hub serves, a pump that has begun to clean up can finish: its socket is then closed and the hub has let it go. */
  lemma CleanupFinishes(s: State, c: nat, who: Who) returns (t: State)
    requires Inv(s) && !s.panicked && s.pc.Selecting? && c in s.conns && s.conns[c].Pump(who).Unregistering?
    ensures Enabled(s, Unregister(c, who)) && Enabled(Do(s, Unregister(c, who)), CloseSocket(c, who))
    ensures t == Do(Do(s, Unregister(c, who)), CloseSocket(c, who))
    ensures c in t.conns && t.conns[c].socketClosed && t.conns[c].sendClosed && t.conns[c].Pump(who).Stopped? && !IsLive(t, c)
  {
    hide *;
    UnregisterFields(s, c, who);
    CloseFields(Do(s, Unregister(c, who)), c, who);
    t := Do(Do(s, Unregister(c, who)), CloseSocket(c, who));
  }

  lemma UnregisterFields(s: State, c: nat, who: Who)
    requires Inv(s) && !s.panicked && s.pc.Selecting? && c in s.conns && s.conns[c].Pump(who).Unregistering?
    ensures Enabled(s, Unregister(c, who))
    ensures var r := Do(s, Unregister(c, who));
            !r.panicked && c in r.conns && r.conns[c].sendClosed && r.conns[c].Pump(who).ClosingSocket? && !IsLive(r, c)
  {
    UnregisterIsLive(s, c, who);
    NoPanicStep(s, Unregister(c, who));
    LiveStep(s, Unregister(c, who), c);
    hide Inv, IsLive, DropClient, GoesOffline;
  }

  lemma CloseFields(r: State, c: nat, who: Who)
    requires !r.panicked && c in r.conns && r.conns[c].Pump(who).ClosingSocket?
    ensures Enabled(r, CloseSocket(c, who))
    ensures var x, t := r.conns[c], Do(r, CloseSocket(c, who));
            && c in t.conns && t.conns[c].socketClosed && t.conns[c].sendClosed == x.sendClosed
            && t.conns[c].Pump(who).Stopped? && (IsLive(t, c) <==> IsLive(r, c))
  {
    hide Live;
  }

  // ---------------------------------------------------------------- unregistering, and shutdown

  lemma LeftStep(s: State, step: Step, c: nat, user: string)
    requires Inv(s) && Enabled(s, step)
    requires Left(c, user) in s.events ==> c in s.conns && s.conns[c].registered && !IsLive(s, c)
    ensures var t := Do(s, step);
            Left(c, user) in t.events ==> c in t.conns && t.conns[c].registered && !IsLive(t, c)
  {
    hide Live, OfflineCalls, AccountsOk, TableOk, Everyone, AddClient, DropClient, GoesOffline, IsLive, LifeOk, PcOk, InTable;
    if Faulty(s, step) {
      PanicOnly(s, step);
      return;
    }
    EventsOf(s, step);
    NoPanicStep(s, step);
    if step.Unregister? && step.c == c {
      LiveStep(s, step, c);
      UnregisterRegistered(s, c, step.who);
    } else if Left(c, user) in s.events {
      LiveStep(s, step, c);
    }
  }

  lemma UnregisterRegistered(s: State, c: nat, who: Who)
    requires Inv(s) && Enabled(s, Unregister(c, who))
    ensures s.conns[c].registered
  {
    hide Live, OfflineCalls, AccountsOk, TableOk, PcOk, IsLive;
    assert LifeOk(s, c);
  }

  lemma {:induction false} LeftMeansGone(steps: seq<Step>, c: nat, user: string)
    requires Valid(steps)
    ensures Left(c, user) in Run(steps).events ==>
              c in Run(steps).conns && Run(steps).conns[c].registered && !IsLive(Run(steps), c)
  {
    hide Do, Enabled, Inv;
    if steps != [] {
      LeftMeansGone(steps[..|steps| - 1], c, user);
      RunInvariant(steps[..|steps| - 1]);
      LeftStep(Run(steps[..|steps| - 1]), steps[|steps| - 1], c, user);
    }
  }

  /** Both pumps race to clean up, yet the hub hears from a connection at most once. */
  lemma UnregistersOnce(steps: seq<Step>, c: nat, who: Who)
    requires Valid(steps) && Enabled(Run(steps), Unregister(c, who))
    ensures Left(c, Run(steps).conns[c].user) !in Run(steps).events
  {
    EnabledParts(Run(steps), c, who);
    RunInvariant(steps);
    LeftMeansGone(steps, c, Run(steps).conns[c].user);
    UnregisterIsLive(Run(steps), c, who);
  }

  /** Cleanup has closed the socket, or is about to. */
  predicate CleanedUp(x: Conn) {
    x.socketClosed || x.reader.ClosingSocket? || x.writer.ClosingSocket?
  }

  /** Cleanup closes exactly the sockets of the connections that registered and left: at once or in its next step. */
  lemma SocketClosedIffLeft(steps: seq<Step>, c: nat)
    requires Valid(steps) && c in Run(steps).conns
    ensures var x := Run(steps).conns[c];
            CleanedUp(x) <==> x.registered && !IsLive(Run(steps), c)
  {
    hide Live, OfflineCalls, AccountsOk, TableOk, PcOk, IsLive, Valid, Run;
    RunInvariant(steps);
    assert LifeOk(Run(steps), c);
  }

  /**
   Once the hub has returned nobody serves registrations or unregistrations. Whatever follows,
   cleanup completes exactly for the connections that had registered and left before; one that
   was still live stays in the table, its pump waits in Unregister for ever and its socket is
   never closed; one that had not registered never does.
   */
  lemma {:induction false} ShutdownStrandsCleanup(steps: seq<Step>, more: seq<Step>, c: nat)
    requires Valid(steps) && Valid(steps + more)
    requires Run(steps).pc.Returned? && c in Run(steps).conns
    ensures var s, t := Run(steps), Run(steps + more);
            && t.pc.Returned? && c in t.conns && t.conns[c].registered == s.conns[c].registered
            && (IsLive(t, c) <==> IsLive(s, c))
            && (CleanedUp(t.conns[c]) <==> s.conns[c].registered && !IsLive(s, c))
            && (IsLive(s, c) ==> forall who :: s.conns[c].Pump(who).Unregistering? ==> t.conns[c].Pump(who).Unregistering?)
    decreases |more|
  {
    if more == [] {
      assert steps + more == steps;
      SocketClosedIffLeft(steps, c);
    } else {
      var n := |more| - 1;
      assert (steps + more)[..|steps + more| - 1] == steps + more[..n];
      assert (steps + more)[|steps + more| - 1] == more[n];
      RunLast(steps + more);
      RunInvariant(steps + more[..n]);
      ShutdownStrandsCleanup(steps, more[..n], c);
      hide *;
      AfterReturn(Run(steps + more[..n]), more[n], c);
      SocketClosedIffLeft(steps + more, c);
    }
  }

  // Two concrete runs.

  lemma Extend(steps: seq<Step>, step: Step)
    requires Valid(steps) && Enabled(Run(steps), step)
    ensures Valid(steps + [step]) && Run(steps + [step]) == Do(Run(steps), step)
  {
    assert (steps + [step])[..|steps|] == steps;
  }

  const SERVED := [Accept(0, "u"), Register(0), Start(0)]
  const OPEN := Conn("u", true, [], false, false, Running, Running, false, [], [])

  lemma ServedRun()
    ensures Valid(SERVED)
    ensures Run(SERVED) == State(Selecting, map["u" := {0}], [], map[0 := OPEN], [], [Joined(0, "u")], false)
  {
    var x := Conn("u", false, [], false, false, NotStarted, NotStarted, false, [], []);
    assert Run([]) == START;
    hide Run, Valid;
    Extend([], Accept(0, "u"));
    assert Run([] + [Accept(0, "u")]) == START.(conns := map[0 := x]);
    Extend([] + [Accept(0, "u")], Register(0));
    assert {} + {0 as nat} == {0};
    assert [] + [Accept(0, "u")] + [Register(0)] == [Accept(0, "u"), Register(0)];
    Extend([Accept(0, "u"), Register(0)], Start(0));
    assert [Accept(0, "u"), Register(0)] + [Start(0)] == SERVED;
  }

  /** The served connection when the hub has shut down. */
  lemma ShutdownRun()
    ensures var steps := SERVED + [Shutdown] + [CloseOne(0)] + [EndShutdown];
            && Valid(steps)
            && Run(steps) == State(Returned, map["u" := {0}], [], map[0 := OPEN.(sendClosed := true)], [], [Joined(0, "u")], false)
  {
    ServedRun();
    hide Valid, Run;
    var clients: Clients := map["u" := {0}];
    assert 0 in clients["u"];
    assert Everyone(clients) == {0};
    Extend(SERVED, Shutdown);
    Extend(SERVED + [Shutdown], CloseOne(0));
    Extend(SERVED + [Shutdown] + [CloseOne(0)], EndShutdown);
  }

  /** One served connection, a shutdown, and a reader that ends too late. */
  lemma StrandedRun()
    ensures var steps := SERVED + [Shutdown] + [CloseOne(0)] + [EndShutdown] + [Quit(0, Reader)];
            && Valid(steps) && Run(steps).pc.Returned?
            && 0 in Run(steps).conns && IsLive(Run(steps), 0) && Run(steps).conns[0].reader.Unregistering?
  {
    ShutdownRun();
    hide Valid, Run;
    Extend(SERVED + [Shutdown] + [CloseOne(0)] + [EndShutdown], Quit(0, Reader));
    Snoc([], Joined(0, "u"));
    assert [] + [Joined(0, "u")] == [Joined(0, "u")];
  }

  lemma ReaderGoneRun()
    ensures var steps := SERVED + [Quit(0, Reader)] + [Unregister(0, Reader)];
            Valid(steps) && !Run(steps).panicked && 0 in Run(steps).conns && Run(steps).conns[0].sendClosed
  {
    ServedRun();
    hide Valid, Run;
    Extend(SERVED, Quit(0, Reader));
    Extend(SERVED + [Quit(0, Reader)], Unregister(0, Reader));
  }

  /** A direct send to a connection whose reader has ended and unregistered it brings the process down. */
  lemma DirectSendPanics()
    ensures var steps := SERVED + [Quit(0, Reader)] + [Unregister(0, Reader)] + [SendDirect(0, "late")];
            Valid(steps) && Run(steps).panicked
  {
    ReaderGoneRun();
    hide Valid, Run;
    Extend(SERVED + [Quit(0, Reader)] + [Unregister(0, Reader)], SendDirect(0, "late"));
  }

  lemma RunLast(steps: seq<Step>)
    requires Valid(steps) && steps != []
    ensures Valid(steps[..|steps| - 1]) && Enabled(Run(steps[..|steps| - 1]), steps[|steps| - 1])
    ensures Run(steps) == Do(Run(steps[..|steps| - 1]), steps[|steps| - 1])
  {
  }

  lemma AfterReturn(s: State, step: Step, c: nat)
    requires Inv(s) && Enabled(s, step) && s.pc.Returned? && c in s.conns
    ensures var t := Do(s, step);
            && t.pc.Returned? && c in t.conns && t.conns[c].registered == s.conns[c].registered
            && (IsLive(t, c) <==> IsLive(s, c))
            && (forall who :: s.conns[c].Pump(who).Unregistering? ==> t.conns[c].Pump(who).Unregistering?)
  {
    hide Live, OfflineCalls, AccountsOk, LifeOk, TableOk, PcOk, IsLive, Everyone, AddClient, DropClient, GoesOffline, InTable;
    if Faulty(s, step) {
      PanicOnly(s, step);
      return;
    }
    LiveStep(s, step, c);
    NoPanicStep(s, step);
  }

  // ---------------------------------------------------------------- the table in the loop's own form

  lemma FlatOfAdd(clients: Clients, c: nat, user: string)
    ensures Flat(AddClient(clients, c, user)) == Flat(clients) + {(c, user)}
  {
    forall p ensures p in Flat(AddClient(clients, c, user)) <==> p in Flat(clients) + {(c, user)} {
      assert p == (p.0, p.1);
    }
  }

  lemma FlatOfDrop(clients: Clients, c: nat, user: string)
    ensures Flat(DropClient(clients, c, user)) == Flat(clients) - {(c, user)}
  {
    forall p ensures p in Flat(DropClient(clients, c, user)) <==> p in Flat(clients) - {(c, user)} {
      assert p == (p.0, p.1);
      DropTable(clients, c, user);
      assert InTable(DropClient(clients, c, user), p.0, p.1) <==> InTable(clients, p.0, p.1) && !(p.0 == c && p.1 == user);
    }
  }

  class Table {
    var clients: Clients

    constructor ()
      ensures clients == map[]
    {
      clients := map[];
    }

    /** The register arm. */
    method OnRegister(c: nat, user: string)
      modifies this
      ensures clients == AddClient(old(clients), c, user)
      ensures Flat(clients) == Flat(old(clients)) + {(c, user)}
    {
      var group: set<nat> := {};
      if user in clients { group := clients[user]; }
      clients := clients[user := group + {c}];
      FlatOfAdd(old(clients), c, user);
    }

    /** The unregister arm: whether it closes the send channel and starts the offline callback. */
    method OnUnregister(c: nat, user: string) returns (closes: bool, offline: bool)
      modifies this
      ensures clients == DropClient(old(clients), c, user)
      ensures Flat(clients) == Flat(old(clients)) - {(c, user)}
      ensures closes == InTable(old(clients), c, user) && offline == GoesOffline(old(clients), c, user)
    {
      closes, offline := false, false;
      FlatOfDrop(clients, c, user);
      if user in clients {
        var group := clients[user];
        if c in group {
          group := group - {c};
          clients := clients[user := group];
          closes := true;
        } else {
          assert group - {c} == group;
        }
        if group == {} {
          clients := clients - {user};
          offline := true;
          assert clients == old(clients) - {user};
        } else {
          assert clients == old(clients)[user := old(clients)[user] - {c}];
        }
      }
    }

    /** The sum of the group sizes is the number of live connections. */
    method ActiveConnections() returns (total: nat)
      ensures total == |Flat(clients)|
    {
      total := 0;
      var todo := clients.Keys;
      var done: Clients := map[];
      while todo != {}
        invariant todo <= clients.Keys
        invariant done == map u | u in clients && u !in todo :: clients[u]
        invariant total == |Flat(done)|
        decreases |todo|
      {
        var u :| u in todo;
        FlatAdd(done, u, clients[u]);
        total := total + |clients[u]|;
        done := done[u := clients[u]];
        todo := todo - {u};
      }
      assert done == clients;
    }
  }

  lemma FlatAdd(clients: Clients, u: string, group: set<nat>)
    requires u !in clients
    ensures |Flat(clients[u := group])| == |Flat(clients)| + |group|
  {
    var added := set c | c in group :: (c, u);
    assert Flat(clients[u := group]) == Flat(clients) + added;
    assert Flat(clients) !! added;
    Tagged(group, u, added);
  }

  lemma {:induction false} Tagged(group: set<nat>, u: string, added: set<(nat, string)>)
    requires added == set c | c in group :: (c, u)
    ensures |added| == |group|
  {
    if group != {} {
      var c :| c in group;
      assert added - {(c, u)} == set d | d in group - {c} :: (d, u);
      Tagged(group - {c}, u, added - {(c, u)});
    }
  }
}
