/** What delivering one message to one recipient does to Redis and to the status table. */
module Delivery {
  import opened Recipients

  datatype Message = Message(id: string, sender: string, body: string, createdAt: int)
  datatype Payload = Payload(messageId: string, sender: string, recipient: string, body: string, serverTs: int)
  datatype Status = Sent | Delivered | Read

  /** Offline lists (head first), publish logs (oldest first) and the status table. */
  datatype Store = Store(
    offline: map<string, seq<Payload>>,
    published: map<string, seq<Payload>>,
    status: map<(string, string), Status>)

  /** One call on the store; each touches the keys of a single user. */
  datatype Op =
    | Publish(user: string, payload: Payload)
    | Upsert(user: string, messageId: string, value: Status)
    | Push(user: string, payload: Payload)

  function ListOf(lists: map<string, seq<Payload>>, user: string): seq<Payload> {
    if user in lists then lists[user] else []
  }

  function Apply(s: Store, op: Op): Store {
    match op
    case Publish(u, p) => s.(published := s.published[u := ListOf(s.published, u) + [p]])
    case Upsert(u, id, v) => s.(status := s.status[(id, u) := v])
    case Push(u, p) => s.(offline := s.offline[u := [p] + ListOf(s.offline, u)])
  }

  function ApplyAll(s: Store, ops: seq<Op>): Store {
    if ops == [] then s else Apply(ApplyAll(s, ops[..|ops| - 1]), ops[|ops| - 1])
  }

  function PayloadFor(m: Message, user: string): Payload {
    Payload(m.id, m.sender, user, m.body, m.createdAt)
  }

  /** The calls deliverToRecipient makes, in order, after reading the user's presence. */
  function DeliverOps(m: Message, user: string, online: bool): seq<Op> {
    if online then [Publish(user, PayloadFor(m, user)), Upsert(user, m.id, Delivered)]
    else [Push(user, PayloadFor(m, user))]
  }

  /** The effect of deliverToRecipient, stated on the tables. */
  function Deliver(s: Store, m: Message, user: string, online: bool): Store {
    if online then
      s.(published := s.published[user := ListOf(s.published, user) + [PayloadFor(m, user)]],
         status := s.status[(m.id, user) := Delivered])
    else
      s.(offline := s.offline[user := [PayloadFor(m, user)] + ListOf(s.offline, user)])
  }

  /** The serial loop over the recipients. */
  function DeliverAll(s: Store, recipients: seq<string>, m: Message, online: set<string>): Store {
    if recipients == [] then s
    else
      var n := |recipients| - 1;
      Deliver(DeliverAll(s, recipients[..n], m, online), m, recipients[n], recipients[n] in online)
  }

  // ---------------------------------------------------------------- per-user views

  /** The part of a call sequence that concerns one user. */
  function Project(ops: seq<Op>, user: string): (r: seq<Op>)
    ensures (forall op :: op in ops ==> op.user != user) ==> r == []
    ensures (forall op :: op in ops ==> op.user == user) ==> r == ops
  {
    if ops == [] then []
    else
      var n := |ops| - 1;
      Project(ops[..n], user) + if ops[n].user == user then [ops[n]] else []
  }

  lemma ProjectSnoc(ops: seq<Op>, op: Op, user: string)
    ensures Project(ops + [op], user) == Project(ops, user) + if op.user == user then [op] else []
  {
    assert (ops + [op])[..|ops|] == ops;
  }

  lemma {:induction false} ProjectAppend(a: seq<Op>, b: seq<Op>, user: string)
    ensures Project(a + b, user) == Project(a, user) + Project(b, user)
  {
    hide Project;
    if b == [] {
      assert a + b == a;
      ProjectNil(user);
    } else {
      var n := |b| - 1;
      ProjectAppend(a, b[..n], user);
      ProjectSnoc(a + b[..n], b[n], user);
      ProjectSnoc(b[..n], b[n], user);
      assert b[..n] + [b[n]] == b;
      assert (a + b[..n]) + [b[n]] == a + b;
    }
  }

  lemma ProjectNil(user: string)
    ensures Project([], user) == []
  {
  }

  function Only(lists: map<string, seq<Payload>>, user: string): map<string, seq<Payload>> {
    map u | u in lists && u == user :: lists[u]
  }

  /** A store cut down to one user's keys. */
  function View(s: Store, user: string): Store {
    Store(Only(s.offline, user), Only(s.published, user), map k | k in s.status && k.1 == user :: s.status[k])
  }

  lemma OnlyUpdate(lists: map<string, seq<Payload>>, u: string, list: seq<Payload>, user: string)
    ensures Only(lists[u := list], user) == if u == user then Only(lists, user)[u := list] else Only(lists, user)
    ensures ListOf(Only(lists, u), u) == ListOf(lists, u)
  {
  }

  lemma ViewPublish(s: Store, u: string, p: Payload, user: string)
    ensures var t := Apply(s, Publish(u, p));
            View(t, user) == if u == user then Apply(View(s, user), Publish(u, p)) else View(s, user)
  {
    hide ListOf, Only;
    OnlyUpdate(s.published, u, ListOf(s.published, u) + [p], user);
  }

  lemma ViewPush(s: Store, u: string, p: Payload, user: string)
    ensures var t := Apply(s, Push(u, p));
            View(t, user) == if u == user then Apply(View(s, user), Push(u, p)) else View(s, user)
  {
    hide ListOf, Only;
    OnlyUpdate(s.offline, u, [p] + ListOf(s.offline, u), user);
  }

  lemma ViewUpsert(s: Store, u: string, id: string, v: Status, user: string)
    ensures var t := Apply(s, Upsert(u, id, v));
            View(t, user) == if u == user then Apply(View(s, user), Upsert(u, id, v)) else View(s, user)
  {
    var l, r := View(Apply(s, Upsert(u, id, v)), user),
                if u == user then Apply(View(s, user), Upsert(u, id, v)) else View(s, user);
    assert l.status == r.status;
  }

  lemma ViewApply(s: Store, op: Op, user: string)
    ensures View(Apply(s, op), user) == if op.user == user then Apply(View(s, user), op) else View(s, user)
  {
    hide View, Apply;
    match op
    case Publish(u, p) => ViewPublish(s, u, p, user);
    case Upsert(u, id, v) => ViewUpsert(s, u, id, v, user);
    case Push(u, p) => ViewPush(s, u, p, user);
  }

  lemma {:induction false} ViewApplyAll(s: Store, ops: seq<Op>, user: string)
    ensures View(ApplyAll(s, ops), user) == ApplyAll(View(s, user), Project(ops, user))
  {
    if ops != [] {
      var n := |ops| - 1;
      ViewApplyAll(s, ops[..n], user);
      ViewApply(ApplyAll(s, ops[..n]), ops[n], user);
      var p := Project(ops[..n], user);
      if ops[n].user == user {
        assert (p + [ops[n]])[..|p|] == p;
      } else {
        assert Project(ops, user) == p;
      }
    }
  }

  lemma ViewsDetermine(s: Store, t: Store)
    requires forall u :: View(s, u) == View(t, u)
    ensures s == t
  {
    forall u ensures (u in s.offline <==> u in t.offline) && (u in s.offline ==> s.offline[u] == t.offline[u])
                  && (u in s.published <==> u in t.published) && (u in s.published ==> s.published[u] == t.published[u])
    {
      var a, b := View(s, u), View(t, u);
      assert u in s.offline <==> u in a.offline;
      assert u in t.offline <==> u in b.offline;
      assert u in s.published <==> u in a.published;
      assert u in t.published <==> u in b.published;
    }
    forall k ensures (k in s.status <==> k in t.status) && (k in s.status ==> s.status[k] == t.status[k]) {
      var a, b := View(s, k.1), View(t, k.1);
      assert k in s.status <==> k in a.status;
      assert k in t.status <==> k in b.status;
    }
    assert s.offline == t.offline && s.published == t.published && s.status == t.status;
  }

  /** Calls of different users commute: only each user's own order matters to the final store. */
  lemma InterleavingIrrelevant(s: Store, a: seq<Op>, b: seq<Op>)
    requires forall u :: Project(a, u) == Project(b, u)
    ensures ApplyAll(s, a) == ApplyAll(s, b)
  {
    forall u ensures View(ApplyAll(s, a), u) == View(ApplyAll(s, b), u) {
      ViewApplyAll(s, a, u);
      ViewApplyAll(s, b, u);
    }
    ViewsDetermine(ApplyAll(s, a), ApplyAll(s, b));
  }

  // ---------------------------------------------------------------- the serial loop as calls

  function SerialOps(recipients: seq<string>, m: Message, online: set<string>): seq<Op> {
    if recipients == [] then []
    else
      var n := |recipients| - 1;
      SerialOps(recipients[..n], m, online) + DeliverOps(m, recipients[n], recipients[n] in online)
  }

  lemma {:induction false} SerialIsDeliverAll(s: Store, recipients: seq<string>, m: Message, online: set<string>)
    ensures ApplyAll(s, SerialOps(recipients, m, online)) == DeliverAll(s, recipients, m, online)
  {
    if recipients != [] {
      var n := |recipients| - 1;
      SerialIsDeliverAll(s, recipients[..n], m, online);
      DeliverIsOps(s, SerialOps(recipients[..n], m, online), m, recipients[n], recipients[n] in online);
    }
  }

  lemma DeliverIsOps(s: Store, ops: seq<Op>, m: Message, user: string, online: bool)
    ensures ApplyAll(s, ops + DeliverOps(m, user, online)) == Deliver(ApplyAll(s, ops), m, user, online)
  {
    var d := DeliverOps(m, user, online);
    assert ops + [d[0]] == (ops + d)[..|ops| + 1];
    assert (ops + [d[0]])[..|ops|] == ops;
    if online {
      assert (ops + d)[..|ops + d| - 1] == ops + [d[0]];
    } else {
      assert ops + d == ops + [d[0]];
    }
  }

  lemma {:induction false} SerialProjection(recipients: seq<string>, m: Message, online: set<string>, user: string)
    requires NoDuplicates(recipients)
    ensures Project(SerialOps(recipients, m, online), user) ==
            if user in recipients then DeliverOps(m, user, user in online) else []
  {
    hide DeliverOps, Project;
    if recipients != [] {
      var n := |recipients| - 1;
      SerialProjection(recipients[..n], m, online, user);
      var last := recipients[n];
      ProjectAppend(SerialOps(recipients[..n], m, online), DeliverOps(m, last, last in online), user);
      DeliverOpsOwner(m, last, last in online, user);
      assert user in recipients <==> user in recipients[..n] || user == last;
    }
  }

  lemma DeliverOpsOwner(m: Message, owner: string, online: bool, user: string)
    ensures Project(DeliverOps(m, owner, online), user) == if owner == user then DeliverOps(m, user, online) else []
  {
  }

  /** Only the presence of the recipients themselves matters. */
  lemma {:induction false} DeliverAllPresence(s: Store, recipients: seq<string>, m: Message, a: set<string>, b: set<string>)
    requires forall r :: r in recipients ==> (r in a <==> r in b)
    ensures DeliverAll(s, recipients, m, a) == DeliverAll(s, recipients, m, b)
  {
    if recipients != [] {
      DeliverAllPresence(s, recipients[..|recipients| - 1], m, a, b);
    }
  }
}
