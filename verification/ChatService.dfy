/** Sending and reading messages: the chat service's tables, its handlers, and whole runs of sends. */
module ChatService {
  import opened Text
  import opened Recipients
  import opened Conversations
  import opened Delivery
  import Fanout
  import opened History

  datatype Request = Request(sender: string, recipients: seq<string>, group: string, body: string)

  /** Which of the database calls whose errors end a send fails, if any. */
  datatype Fault = Fine | MembersUnread | ConversationRefused | InsertRefused

  /** What one send reads or is given from outside: the group's members, the generated id, NOW(), presence, failures. */
  datatype Env = Env(members: seq<string>, newId: string, now: int, online: set<string>, fault: Fault)

  datatype Error = InvalidArgument | Internal
  datatype Result<+T> = Ok(value: T) | Err(error: Error)

  datatype Chat = Chat(messages: seq<Row>, conversations: map<string, string>, store: Store)

  // ---------------------------------------------------------------- what a send does

  /** The validator tags of the send input, after sender and group are trimmed. */
  predicate Validates(req: Request) {
    && TrimSpace(req.sender) != ""
    && (TrimSpace(req.group) == "" ==> req.recipients != [])
    && |req.recipients| <= 256 && (forall r :: r in req.recipients ==> r != "")
    && |TrimSpace(req.group)| <= 128
    && 0 < |req.body| <= 8000
  }

  function Resolved(req: Request, members: seq<string>): (r: seq<string>)
    ensures NoDuplicates(r)
    ensures forall u :: u in r ==> u != "" && u != TrimSpace(req.sender) && Trimmed(u)
  {
    Dedupe(if TrimSpace(req.group) != "" then members else req.recipients, TrimSpace(req.sender))
  }

  /** How far a send gets: an error before anything is written, a conversation without a message, or a message. */
  datatype Outcome = Refused(error: Error) | Uninserted | Inserted

  function OutcomeOf(req: Request, env: Env): Outcome {
    if !Validates(req) then Refused(InvalidArgument)
    else if TrimSpace(req.group) != "" && env.fault.MembersUnread? then Refused(Internal)
    else if Resolved(req, env.members) == [] then Refused(InvalidArgument)
    else if env.fault.ConversationRefused? then Refused(Internal)
    else if env.fault.InsertRefused? then Uninserted
    else Inserted
  }

  predicate Accepted(req: Request, env: Env) {
    OutcomeOf(req, env).Inserted?
  }

  function NewRow(req: Request, env: Env): Row
    requires !OutcomeOf(req, env).Refused?
  {
    var sender, group, rs := TrimSpace(req.sender), TrimSpace(req.group), Resolved(req, env.members);
    Row(env.newId, BuildConversationID(sender, rs, group), sender,
        if group != "" then None else Some(rs[0]), if group != "" then Some(group) else None, req.body, env.now)
  }

  /** What becomes of a send, from the request, the list of members and the failures alone. */
  lemma OutcomeExact(req: Request, env: Env)
    ensures var sender, group := TrimSpace(req.sender), TrimSpace(req.group);
            var list := if group != "" then env.members else req.recipients;
            var wellFormed :=
              && sender != "" && |group| <= 128 && 1 <= |req.body| <= 8000
              && |req.recipients| <= 256 && (forall i :: 0 <= i < |req.recipients| ==> req.recipients[i] != "")
              && (group == "" ==> |req.recipients| >= 1);
            var someone := exists i :: 0 <= i < |list| && TrimSpace(list[i]) != "" && TrimSpace(list[i]) != sender;
            var unread := group != "" && env.fault == MembersUnread;
            var outcome := OutcomeOf(req, env);
            && (outcome == Inserted <==>
                  wellFormed && someone && !unread && env.fault != ConversationRefused && env.fault != InsertRefused)
            && (outcome == Uninserted <==> wellFormed && someone && env.fault == InsertRefused)
            && (outcome == Refused(InvalidArgument) <==> !wellFormed || (!someone && !unread))
            && (outcome == Refused(Internal) <==> wellFormed && (unread || (someone && env.fault == ConversationRefused)))
  {
    hide TrimSpace, Dedupe;
    var sender := TrimSpace(req.sender);
    var list := if TrimSpace(req.group) != "" then env.members else req.recipients;
    NoBlanks(req.recipients);
    SomeoneKept(list, sender);
  }

  lemma NoBlanks(list: seq<string>)
    ensures (forall r :: r in list ==> r != "") <==> forall i :: 0 <= i < |list| ==> list[i] != ""
  {
    if forall i :: 0 <= i < |list| ==> list[i] != "" {
      forall r | r in list ensures r != "" {
        var i :| 0 <= i < |list| && list[i] == r;
      }
    } else {
      var i :| 0 <= i < |list| && list[i] == "";
      assert list[i] in list;
    }
  }

  lemma SomeoneKept(list: seq<string>, sender: string)
    ensures Dedupe(list, sender) != [] <==>
            exists i :: 0 <= i < |list| && TrimSpace(list[i]) != "" && TrimSpace(list[i]) != sender
  {
    hide TrimSpace, Dedupe;
    if Dedupe(list, sender) != [] { var k := FirstKept(list, sender); }
    if i :| 0 <= i < |list| && TrimSpace(list[i]) != "" && TrimSpace(list[i]) != sender {
      DedupeMembers(list, sender, TrimSpace(list[i]));
    }
  }

  /** Who a send goes to: everyone its list mentions, but blanks and the sender; a direct row names the first of them. */
  lemma ResolvedExact(req: Request, members: seq<string>, user: string)
    ensures var sender, list := TrimSpace(req.sender), if TrimSpace(req.group) != "" then members else req.recipients;
            && (user in Resolved(req, members) <==>
                  user != "" && user != sender && exists i :: 0 <= i < |list| && TrimSpace(list[i]) == user)
            && (Resolved(req, members) != [] ==>
                  exists k :: 0 <= k < |list| && Resolved(req, members)[0] == TrimSpace(list[k])
                    && TrimSpace(list[k]) != "" && TrimSpace(list[k]) != sender
                    && forall j :: 0 <= j < k ==> TrimSpace(list[j]) == "" || TrimSpace(list[j]) == sender)
  {
    hide TrimSpace, Dedupe;
    var sender, list := TrimSpace(req.sender), if TrimSpace(req.group) != "" then members else req.recipients;
    DedupeMembers(list, sender, user);
    if Resolved(req, members) != [] { var k := FirstKept(list, sender); }
  }

  function EventOf(row: Row): Message {
    Message(row.id, row.sender, row.body, row.createdAt)
  }

  /** The store once the sender's own "sent" row is in, before anyone is delivered to. */
  function MarkSent(s: Store, row: Row): Store {
    s.(status := s.status[(row.id, row.sender) := Sent])
  }

  function Ensure(conversations: map<string, string>, id: string, kind: string): map<string, string> {
    if id in conversations then conversations else conversations[id := kind]
  }

  /** The conversation table, which a send whose insert fails has already written. */
  function Opened(conversations: map<string, string>, req: Request, env: Env): map<string, string> {
    if OutcomeOf(req, env).Refused? then conversations
    else
      var row := NewRow(req, env);
      Ensure(conversations, row.conversation, if row.group.Some? then "group" else "direct")
  }

  /** The tables after one send, in terms of the serial delivery loop. */
  function Send(chat: Chat, req: Request, env: Env): Chat {
    var conversations := Opened(chat.conversations, req, env);
    if !Accepted(req, env) then chat.(conversations := conversations)
    else
      var row := NewRow(req, env);
      Chat(chat.messages + [row], conversations,
           DeliverAll(MarkSent(chat.store, row), Resolved(req, env.members), EventOf(row), env.online))
  }

  /** A send that fails stores nothing and delivers nothing; at most it opens its conversation. */
  lemma FailedSend(chat: Chat, req: Request, env: Env)
    requires !OutcomeOf(req, env).Inserted?
    ensures var after := Send(chat, req, env);
            && after.messages == chat.messages && after.store == chat.store
            && (OutcomeOf(req, env).Refused? ==> after.conversations == chat.conversations)
            && (OutcomeOf(req, env).Uninserted? ==>
                  var id := BuildConversationID(TrimSpace(req.sender), Resolved(req, env.members), TrimSpace(req.group));
                  && after.conversations.Keys == chat.conversations.Keys + {id}
                  && forall k :: k in chat.conversations ==> after.conversations[k] == chat.conversations[k])
  {
    hide Validates, Resolved, TrimSpace, BuildConversationID;
  }

  // ---------------------------------------------------------------- the service

  datatype HistoryMessage = HistoryMessage(id: string, sender: string, recipients: seq<string>, body: string, createdAt: int)
  datatype HistoryResponse = HistoryResponse(messages: seq<HistoryMessage>, nextCursor: string)

  function ToMessage(row: Row): HistoryMessage {
    HistoryMessage(row.id, row.sender,
                   if row.recipient.Some? && row.recipient.value != "" then [row.recipient.value] else [],
                   row.body, row.createdAt)
  }

  function Render(page: Page): HistoryResponse {
    HistoryResponse(seq(|page.rows|, i requires 0 <= i < |page.rows| => ToMessage(page.rows[i])), page.next)
  }

  /** A response shows these rows, field by field and in order. */
  ghost predicate Carries(response: HistoryResponse, rows: seq<Row>) {
    && |response.messages| == |rows|
    && (forall i :: 0 <= i < |rows| ==>
          var shown, row := response.messages[i], rows[i];
          && shown.id == row.id && shown.sender == row.sender && shown.body == row.body && shown.createdAt == row.createdAt
          && (row.recipient.Some? && row.recipient.value != "" ==> shown.recipients == [row.recipient.value])
          && (row.recipient.None? || row.recipient.value == "" ==> shown.recipients == []))
  }

  class ChatServer {
    var messages: seq<Row>
    var conversations: map<string, string>
    var store: Store

    constructor ()
      ensures Value() == EMPTY
    {
      messages, conversations, store := [], map[], Store(map[], map[], map[]);
    }

    function Value(): Chat
      reads this
    {
      Chat(messages, conversations, store)
    }

    method DeliverToRecipient(userPhone: string, m: Message, online: bool)
      modifies this`store
      ensures store == Deliver(old(store), m, userPhone, online)
    {
      var payload := Payload(m.id, m.sender, userPhone, m.body, m.createdAt);
      if online {
        store := Apply(store, Publish(userPhone, payload));
        store := Apply(store, Upsert(userPhone, m.id, Delivered));
        return;
      }
      store := Apply(store, Push(userPhone, payload));
    }

    /** Runs the workers in the order `schedule` picks; the shared store moves with every step. */
    method GroupFanout(recipients: seq<string>, m: Message, schedule: seq<Fanout.Step>) returns (seen: set<string>)
      requires NoDuplicates(recipients)
      requires Fanout.Valid(Fanout.Call(recipients, m, store), schedule)
      requires Fanout.Run(Fanout.Call(recipients, m, store), schedule).main.Returned?
      modifies this`store
      ensures store == DeliverAll(old(store), recipients, m, seen)
      ensures forall online :: Fanout.Agrees(Fanout.Call(recipients, m, old(store)), schedule, online) ==>
                               store == DeliverAll(old(store), recipients, m, online)
    {
      hide Fanout.Enabled, Fanout.Do, Fanout.Agrees, NoDuplicates, DeliverAll;
      var c := Fanout.Call(recipients, m, store);
      var s := Fanout.Start(c);
      for k := 0 to |schedule|
        invariant Fanout.Valid(c, schedule[..k]) && s == Fanout.Run(c, schedule[..k])
        invariant store == s.store
      {
        ValidPrefix(c, schedule, k + 1);
        Fanout.Extend(c, schedule[..k], schedule[k]);
        assert schedule[..k + 1] == schedule[..k] + [schedule[k]];
        s := Fanout.Do(c, s, schedule[k]);
        store := s.store;
      }
      assert schedule[..|schedule|] == schedule;
      Fanout.FanoutRefinesSerial(c, schedule);
      forall online | Fanout.Agrees(c, schedule, online) ensures store == DeliverAll(c.init, recipients, m, online) {
        Fanout.FixedPresence(c, schedule, online);
      }
      seen := Fanout.OnlineIn(s.observed);
    }

    /** The serial loop of a direct message. */
    method DeliverEach(recipients: seq<string>, m: Message, online: set<string>)
      modifies this`store
      ensures store == DeliverAll(old(store), recipients, m, online)
    {
      for k := 0 to |recipients|
        invariant store == DeliverAll(old(store), recipients[..k], m, online)
      {
        assert recipients[..k + 1][..k] == recipients[..k];
        DeliverToRecipient(recipients[k], m, recipients[k] in online);
      }
      assert recipients[..|recipients|] == recipients;
    }

    /**
     One send. A direct message is delivered by the serial loop, a group message by the
     worker pool under any schedule; both leave the tables that Send describes.
     */
    method SendMessage(req: Request, env: Env, schedule: seq<Fanout.Step>) returns (result: Result<string>, seen: set<string>)
      requires Accepted(req, env) && TrimSpace(req.group) != "" ==>
                 var row := NewRow(req, env);
                 var c := Fanout.Call(Resolved(req, env.members), EventOf(row), MarkSent(store, row));
                 Fanout.Valid(c, schedule) && Fanout.Run(c, schedule).main.Returned?
      modifies this
      ensures Value() == Send(old(Value()), req, env.(online := seen))
      ensures result == match OutcomeOf(req, env)
                        case Inserted => Ok(env.newId)
                        case Uninserted => Err(Internal)
                        case Refused(e) => Err(e)
      ensures TrimSpace(req.group) == "" ==> seen == env.online
    {
      hide DeliverAll, Fanout.Valid, Fanout.Run, Validates, BuildConversationID, Trimmed, TrimSpace, Dedupe, NoDuplicates;
      ResolvedDistinct(req, env.members);
      seen := env.online;
      var sender, group := TrimSpace(req.sender), TrimSpace(req.group);
      if !Validates(req) { return Err(InvalidArgument), seen; }
      var recipients := DedupeRecipients(req.recipients, sender);
      if group != "" {
        if env.fault.MembersUnread? { return Err(Internal), seen; }
        recipients := DedupeRecipients(env.members, sender);
      }
      if |recipients| == 0 { return Err(InvalidArgument), seen; }

      var conversationID := BuildConversationID(sender, recipients, group);
      var kind := "direct";
      if group != "" { kind := "group"; }
      if env.fault.ConversationRefused? { return Err(Internal), seen; }
      if conversationID !in conversations {
        conversations := conversations[conversationID := kind];
      }
      if env.fault.InsertRefused? { return Err(Internal), seen; }
      var row := Row(env.newId, conversationID, sender, None, None, req.body, env.now);
      if group != "" {
        row := row.(group := Some(group));
      } else if |recipients| > 0 {
        row := row.(recipient := Some(recipients[0]));
      }
      messages := messages + [row];
      store := Apply(store, Upsert(sender, row.id, Sent));
      var m := Message(row.id, row.sender, row.body, row.createdAt);
      if group != "" {
        seen := GroupFanout(recipients, m, schedule);
      } else {
        DeliverEach(recipients, m, env.online);
      }
      result := Ok(row.id);
    }

    /** One page of history, from the tables as they are. */
    method GetHistory(conversationID: string, cursor: string, limit: int, readFails: bool) returns (result: Result<HistoryResponse>)
      ensures result == if TrimSpace(conversationID) == "" then Err(InvalidArgument)
                        else if readFails then Err(Internal)
                        else Ok(Render(Fetch(messages, conversationID, cursor, limit)))
      ensures result.Ok? ==>
                var page := Fetch(messages, conversationID, cursor, limit);
                Carries(result.value, page.rows) && result.value.nextCursor == page.next
    {
      hide TrimSpace, GetMessageHistory;
      var n := if limit <= 0 then 20 else limit;
      if n > 50 { n := 50; }
      var id := TrimSpace(conversationID);
      if id == "" { return Err(InvalidArgument); }
      if readFails { return Err(Internal); }
      var rows := GetMessageHistory(messages, id, TrimSpace(cursor), n);
      var out: seq<HistoryMessage> := [];
      for i := 0 to |rows|
        invariant |out| == i && forall j :: 0 <= j < i ==> out[j] == ToMessage(rows[j])
      {
        var recipients: seq<string> := [];
        if rows[i].recipient.Some? && rows[i].recipient.value != "" {
          recipients := recipients + [rows[i].recipient.value];
        }
        out := out + [HistoryMessage(rows[i].id, rows[i].sender, recipients, rows[i].body, rows[i].createdAt)];
      }
      var nextCursor := "";
      if |rows| == n { nextCursor := rows[|rows| - 1].id; }
      assert out == Render(Page(rows, nextCursor)).messages;
      result := Ok(HistoryResponse(out, nextCursor));
    }
  }

  lemma {:induction false} ValidPrefix(c: Fanout.Call, steps: seq<Fanout.Step>, k: nat)
    requires Fanout.Valid(c, steps) && k <= |steps|
    ensures Fanout.Valid(c, steps[..k])
    ensures k > 0 ==> Fanout.Valid(c, steps[..k - 1]) && Fanout.Enabled(c, Fanout.Run(c, steps[..k - 1]), steps[k - 1])
    decreases |steps|
  {
    if k < |steps| {
      ValidPrefix(c, steps[..|steps| - 1], k);
      assert steps[..|steps| - 1][..k] == steps[..k];
      if k > 0 { assert steps[..|steps| - 1][..k - 1] == steps[..k - 1]; }
    } else {
      assert steps[..k] == steps;
    }
  }

  // ---------------------------------------------------------------- runs of sends

  datatype SendOp = SendOp(req: Request, env: Env)

  const EMPTY := Chat([], map[], Store(map[], map[], map[]))

  function RunSends(ops: seq<SendOp>): Chat {
    if ops == [] then EMPTY
    else Send(RunSends(ops[..|ops| - 1]), ops[|ops| - 1].req, ops[|ops| - 1].env)
  }

  /** gen_random_uuid() gives every inserted message an unused, non-blank id. */
  ghost predicate FreshIds(ops: seq<SendOp>) {
    && (forall i, j :: 0 <= i < j < |ops| ==> ops[i].env.newId != ops[j].env.newId)
    && (forall op :: op in ops ==> op.env.newId != "" && Trimmed(op.env.newId))
  }

  /** Every row is a direct message between two different phones or a group message, filed accordingly. */
  predicate WellFiled(row: Row) {
    && row.sender != "" && Trimmed(row.sender)
    && match row.group
       case Some(g) => g != "" && Trimmed(g) && row.recipient.None?
                       && row.conversation == BuildConversationID(row.sender, [], g)
       case None => row.recipient.Some? && row.recipient.value != row.sender
                    && row.recipient.value != "" && Trimmed(row.recipient.value)
                    && row.conversation == BuildConversationID(row.sender, [row.recipient.value], "")
  }

  lemma NewRowWellFiled(req: Request, env: Env)
    requires Accepted(req, env)
    ensures WellFiled(NewRow(req, env))
  {
    var rs := Resolved(req, env.members);
    assert rs[0] in rs;
  }

  /** The invariant of every run: unique ids, well-filed rows, statuses only of stored messages. */
  ghost predicate ChatInv(chat: Chat) {
    && ValidTable(chat.messages)
    && (forall r :: r in chat.messages ==> WellFiled(r))
    && (forall k :: k in chat.store.status ==> exists r :: r in chat.messages && r.id == k.0)
  }

  lemma {:induction false} StatusKeys(s: Store, recipients: seq<string>, m: Message, online: set<string>)
    ensures forall k :: k in DeliverAll(s, recipients, m, online).status ==> k in s.status || k.0 == m.id
  {
    if recipients != [] { StatusKeys(s, recipients[..|recipients| - 1], m, online); }
  }

  lemma SendKeepsInv(chat: Chat, req: Request, env: Env)
    requires ChatInv(chat) && env.newId != "" && Trimmed(env.newId)
    requires forall r :: r in chat.messages ==> r.id != env.newId
    ensures ChatInv(Send(chat, req, env))
  {
    hide Validates, WellFiled, BuildConversationID, DeliverAll, Trimmed, Resolved;
    if Accepted(req, env) {
      NewRowWellFiled(req, env);
      var row := NewRow(req, env);
      var t := Send(chat, req, env);
      assert t.messages == chat.messages + [row];
      StatusKeys(MarkSent(chat.store, row), Resolved(req, env.members), EventOf(row), env.online);
      forall k | k in t.store.status ensures exists r :: r in t.messages && r.id == k.0 {
        if k.0 == row.id {
          assert row in t.messages;
        } else {
          var r :| r in chat.messages && r.id == k.0;
          assert r in t.messages;
        }
      }
    }
  }

  predicate IdOf(ops: seq<SendOp>, id: string) {
    exists i :: 0 <= i < |ops| && ops[i].env.newId == id
  }

  lemma {:induction false} RunKeepsInv(ops: seq<SendOp>)
    requires FreshIds(ops)
    ensures ChatInv(RunSends(ops))
    ensures forall r :: r in RunSends(ops).messages ==> IdOf(ops, r.id)
  {
    if ops != [] {
      var n := |ops| - 1;
      var op := ops[n];
      var chat := RunSends(ops[..n]);
      RunKeepsInv(ops[..n]);
      assert ops[n] in ops;
      hide ChatInv, DeliverAll, Validates, Resolved, Trimmed;
      forall r | r in chat.messages ensures IdOf(ops, r.id) && r.id != op.env.newId {
        var i :| 0 <= i < |ops[..n]| && ops[..n][i].env.newId == r.id;
        assert ops[i].env.newId == r.id;
      }
      SendKeepsInv(chat, op.req, op.env);
      if Accepted(op.req, op.env) {
        assert RunSends(ops).messages == chat.messages + [NewRow(op.req, op.env)];
        assert ops[n].env.newId == NewRow(op.req, op.env).id;
      }
    }
  }

  /** The kind a conversation is filed with, which its id shows. */
  predicate RightKind(id: string, kind: string) {
    id != "" && kind == if id[0] == 'g' then "group" else "direct"
  }

  ghost predicate KindsOk(chat: Chat) {
    && (forall id :: id in chat.conversations ==> RightKind(id, chat.conversations[id]))
    && (forall r :: r in chat.messages ==> r.conversation in chat.conversations)
  }

  lemma RowKind(req: Request, env: Env)
    requires !OutcomeOf(req, env).Refused?
    ensures var row := NewRow(req, env); RightKind(row.conversation, if row.group.Some? then "group" else "direct")
  {
    hide Validates, Less, TrimSpace, Resolved;
  }

  lemma {:induction false} KindsOverRun(ops: seq<SendOp>)
    ensures KindsOk(RunSends(ops))
  {
    hide OutcomeOf, NewRow, RightKind, DeliverAll, Resolved, Validates;
    if ops != [] {
      var n := |ops| - 1;
      var op := ops[n];
      KindsOverRun(ops[..n]);
      if !OutcomeOf(op.req, op.env).Refused? { RowKind(op.req, op.env); }
    }
  }

  /**
   After any run, failed sends included, every stored message has its conversation's row, and
   that row has the kind of the message.
   */
  lemma ConversationsOverRun(ops: seq<SendOp>, row: Row)
    requires FreshIds(ops) && row in RunSends(ops).messages
    ensures var kinds := RunSends(ops).conversations;
            row.conversation in kinds && kinds[row.conversation] == if row.group.Some? then "group" else "direct"
  {
    hide RunSends, Less, FreshIds, ValidTable;
    RunKeepsInv(ops);
    KindsOverRun(ops);
    assert WellFiled(row);
  }

  /** An accepted send is stored once, under its id, with the sender, text, time and addressee it was given. */
  lemma {:induction false} StoredAsSent(ops: seq<SendOp>, i: nat)
    requires FreshIds(ops) && i < |ops| && Accepted(ops[i].req, ops[i].env)
    ensures var req, env := ops[i].req, ops[i].env;
            exists r :: r in RunSends(ops).messages && r.id == env.newId
                        && r.sender == TrimSpace(req.sender) && r.body == req.body && r.createdAt == env.now
                        && (if TrimSpace(req.group) != "" then r.group == Some(TrimSpace(req.group)) && r.recipient == None
                            else r.group == None && r.recipient == Some(Dedupe(req.recipients, TrimSpace(req.sender))[0]))
  {
    hide Validates, BuildConversationID, DeliverAll, TrimSpace, Dedupe;
    var n := |ops| - 1;
    if i < n {
      assert ops[..n][i] == ops[i];
      StoredAsSent(ops[..n], i);
      assert forall r :: r in RunSends(ops[..n]).messages ==> r in RunSends(ops).messages;
    } else {
      var row := NewRow(ops[n].req, ops[n].env);
      assert RunSends(ops).messages == RunSends(ops[..n]).messages + [row];
      assert row in RunSends(ops).messages;
    }
  }

  /** Every stored row is what some accepted send stored. */
  lemma {:induction false} RowOrigin(ops: seq<SendOp>, row: Row) returns (i: nat)
    requires row in RunSends(ops).messages
    ensures i < |ops| && Accepted(ops[i].req, ops[i].env) && row == NewRow(ops[i].req, ops[i].env)
  {
    hide Accepted, NewRow, DeliverAll;
    var n := |ops| - 1;
    if row in RunSends(ops[..n]).messages {
      i := RowOrigin(ops[..n], row);
    } else {
      i := n;
    }
  }

  /** The message shown is what this send gave: its id, sender, text and time, and a direct message's addressee. */
  ghost predicate ShowsSend(shown: HistoryMessage, req: Request, env: Env) {
    && shown.id == env.newId && shown.sender == TrimSpace(req.sender) && shown.body == req.body && shown.createdAt == env.now
    && (if TrimSpace(req.group) != "" then shown.recipients == []
        else exists k :: 0 <= k < |req.recipients| && shown.recipients == [TrimSpace(req.recipients[k])]
               && TrimSpace(req.recipients[k]) != "" && TrimSpace(req.recipients[k]) != TrimSpace(req.sender)
               && forall j :: 0 <= j < k ==>
                    TrimSpace(req.recipients[j]) == "" || TrimSpace(req.recipients[j]) == TrimSpace(req.sender))
  }

  lemma ShownRow(req: Request, env: Env, shown: HistoryMessage)
    requires Accepted(req, env) && Carries(HistoryResponse([shown], ""), [NewRow(req, env)])
    ensures ShowsSend(shown, req, env)
  {
    hide Validates, TrimSpace, BuildConversationID, Dedupe;
    var row := NewRow(req, env);
    assert [row][0] == row && HistoryResponse([shown], "").messages[0] == shown;
    if TrimSpace(req.group) == "" {
      var k := FirstKept(req.recipients, TrimSpace(req.sender));
    }
  }

  /** Whatever page of whatever conversation is read after a run of sends, each message is one that was sent, as it was sent. */
  lemma HistoryCarriesSends(
    ops: seq<SendOp>, conversation: string, cursor: string, limit: int, response: HistoryResponse, k: nat) returns (i: nat)
    requires Carries(response, Fetch(RunSends(ops).messages, conversation, cursor, limit).rows) && k < |response.messages|
    ensures i < |ops| && Accepted(ops[i].req, ops[i].env) && ShowsSend(response.messages[k], ops[i].req, ops[i].env)
  {
    hide Accepted, NewRow, RunSends, ShowsSend, TrimSpace, Passes, CutoffOf, Lookup, Newer;
    var rows := Fetch(RunSends(ops).messages, conversation, cursor, limit).rows;
    assert rows[k] in rows;
    i := RowOrigin(ops, rows[k]);
    var one := HistoryResponse([response.messages[k]], "");
    assert Carries(one, [rows[k]]);
    ShownRow(ops[i].req, ops[i].env, response.messages[k]);
  }

  // ---------------------------------------------------------------- the direct-message round trip

  /** A direct message exchanged between these two phones, in either direction. */
  predicate Between(row: Row, a: string, b: string) {
    row.group.None? && row.recipient.Some? && {row.sender, row.recipient.value} == {a, b}
  }

  /** The message is filed under the pair's conversation, by whichever pair of phones. */
  predicate Shares(row: Row, a: string, b: string) {
    row.group.None? && row.recipient.Some? && SameDirect(row.sender, row.recipient.value, a, b)
  }

  /** A pair's conversation holds the messages of the pairs whose id splits alike, and nothing else. */
  lemma FiledUnderPair(row: Row, a: string, b: string)
    requires WellFiled(row)
    ensures row.conversation == BuildConversationID(a, [b], "") <==> Shares(row, a, b)
    ensures Between(row, a, b) ==> Shares(row, a, b)
  {
    hide BuildConversationID, SameDirect, Trimmed;
    if row.group.Some? {
      BuiltIdCollision(row.sender, [], row.group.value, a, [b], "");
    } else {
      BuiltIdCollision(row.sender, [row.recipient.value], "", a, [b], "");
      if Between(row, a, b) {
        DirectIdNamesPair(a, b, a, b);
        assert row.sender in {a, b} && row.recipient.value in {a, b};
      }
    }
  }

  /** No other pair's message is filed under this pair's conversation. */
  ghost predicate NoStranger(table: seq<Row>, a: string, b: string) {
    forall r :: r in table && Shares(r, a, b) ==> Between(r, a, b)
  }

  /** These are the messages between the two phones, no more and no fewer. */
  ghost predicate ExactlyBetween(got: seq<Row>, table: seq<Row>, a: string, b: string) {
    forall r :: r in got <==> r in table && Between(r, a, b)
  }

  lemma PairConversation(chat: Chat, a: string, b: string)
    requires ChatInv(chat)
    ensures forall r :: r in Conversation(chat.messages, BuildConversationID(a, [b], "")) <==> r in chat.messages && Shares(r, a, b)
    ensures forall r :: r in chat.messages && Between(r, a, b) ==> Shares(r, a, b)
  {
    hide BuildConversationID, Between, Shares, WellFiled, ValidTable;
    forall r | r in chat.messages
      ensures r.conversation == BuildConversationID(a, [b], "") <==> Shares(r, a, b)
      ensures Between(r, a, b) ==> Shares(r, a, b)
    {
      FiledUnderPair(r, a, b);
    }
  }

  /** A client has walked the pair's conversation, named from either side, to its end after these sends. */
  ghost predicate PairWalk(
    ops: seq<SendOp>, a: string, b: string, tables: seq<seq<Row>>, limit: int, pages: seq<Page>, fromA: bool)
  {
    var id := if fromA then BuildConversationID(a, [b], "") else BuildConversationID(b, [a], "");
    && a != "" && b != "" && Trimmed(a) && Trimmed(b)
    && Walk(tables, id, limit, pages) && QuietWalk(tables, id, pages)
    && tables[0] == RunSends(ops).messages && pages[|pages| - 1].next == ""
  }

  /** What the walk delivers, row by row. */
  lemma PairWalkRow(
    ops: seq<SendOp>, a: string, b: string, tables: seq<seq<Row>>, limit: int, pages: seq<Page>, fromA: bool, row: Row)
    requires FreshIds(ops) && PairWalk(ops, a, b, tables, limit, pages, fromA)
    ensures var rows, n := RunSends(ops).messages, ClampLimit(limit);
            var all := Conversation(rows, BuildConversationID(a, [b], ""));
            && Descending(Collected(pages))
            && RowsOf(pages) == Pages(all, n)
            && (row in Collected(pages) <==> row in all && !Hidden(RowsOf(pages), row))
            && (Collected(pages) == all <==> NoTieAtBoundary(all, n))
            && (NoTieAtBoundary(all, n) ==> (|pages| - 1) * n <= |all| < |pages| * n)
  {
    hide BuildConversationID, Walk, QuietWalk, RunSends, Trimmed, Conversation, Descending, RowsOf, Pages, Hidden, Collected,
         NoTieAtBoundary, FreshIds;
    assert tables != [] by { WalkNonempty(ops, a, b, tables, limit, pages, fromA); }
    DirectIdNamesPair(a, b, a, b);
    PairIdTrimmed(a, b);
    var id := BuildConversationID(a, [b], "");
    FinishedWalkExact(tables, id, limit, pages, row);
    FinishedRows(tables, id, limit, pages);
  }

  lemma WalkNonempty(
    ops: seq<SendOp>, a: string, b: string, tables: seq<seq<Row>>, limit: int, pages: seq<Page>, fromA: bool)
    requires PairWalk(ops, a, b, tables, limit, pages, fromA)
    ensures tables != [] && pages != []
  {
    hide BuildConversationID, QuietWalk, RunSends, Trimmed, Fetch;
  }

  /**
   After any run of sends, a client that walks a pair's conversation, with any page size and
   while later sends arrive, receives in descending order the messages filed there except those
   a used cursor hides. These are exactly the pair's messages if and only if the hidden ones are
   exactly the strangers': with no stranger, if and only if no tie straddles a page boundary, and
   with no such tie, if and only if there is no stranger.
   */
  lemma DirectRoundTrip(
    ops: seq<SendOp>, a: string, b: string, tables: seq<seq<Row>>, limit: int, pages: seq<Page>, fromA: bool)
    requires FreshIds(ops) && PairWalk(ops, a, b, tables, limit, pages, fromA)
    ensures var rows, n := RunSends(ops).messages, ClampLimit(limit);
            var all, got := Conversation(rows, BuildConversationID(a, [b], "")), Collected(pages);
            && Descending(got)
            && (forall r :: r in got <==> r in rows && Shares(r, a, b) && !Hidden(Pages(all, n), r))
            && (ExactlyBetween(got, rows, a, b) <==>
                  forall r :: r in rows && Shares(r, a, b) ==> (Hidden(Pages(all, n), r) <==> !Between(r, a, b)))
            && (NoStranger(rows, a, b) ==> (ExactlyBetween(got, rows, a, b) <==> NoTieAtBoundary(all, n)))
            && (NoTieAtBoundary(all, n) ==> (ExactlyBetween(got, rows, a, b) <==> NoStranger(rows, a, b)))
            && (NoTieAtBoundary(all, n) ==> got == all && (|pages| - 1) * n <= |got| < |pages| * n)
  {
    hide *;
    var rows, n := RunSends(ops).messages, ClampLimit(limit);
    var all, got := Conversation(rows, BuildConversationID(a, [b], "")), Collected(pages);
    RunKeepsInv(ops);
    PairConversation(RunSends(ops), a, b);
    forall r ensures r in got <==> r in all && !Hidden(Pages(all, n), r) {
      PairWalkRow(ops, a, b, tables, limit, pages, fromA, r);
    }
    ConversationDescending(ops, a, b);
    PairWalkRow(ops, a, b, tables, limit, pages, fromA, Row("", "", "", None, None, "", 0));
    ExactCases(rows, all, got, Pages(all, n), a, b);
    NothingHidden(all, got);
  }

  lemma ConversationDescending(ops: seq<SendOp>, a: string, b: string)
    requires FreshIds(ops)
    ensures Descending(Conversation(RunSends(ops).messages, BuildConversationID(a, [b], "")))
  {
    hide BuildConversationID, RunSends, FreshIds, Descending, Select, ValidTable;
    RunKeepsInv(ops);
    SelectionDescending(RunSends(ops).messages, BuildConversationID(a, [b], ""), Everything);
  }

  /** Descending lists with the same rows are equal, so the walk is complete when it has every row. */
  lemma NothingHidden(all: seq<Row>, got: seq<Row>)
    requires Descending(all) && Descending(got)
    ensures got == all <==> forall r :: r in all <==> r in got
  {
    hide Descending;
    if forall r :: r in all <==> r in got { DescendingUnique(all, got); }
  }

  lemma ExactCases(rows: seq<Row>, all: seq<Row>, got: seq<Row>, pages: seq<seq<Row>>, a: string, b: string)
    requires forall r :: r in all <==> r in rows && Shares(r, a, b)
    requires forall r :: r in rows && Between(r, a, b) ==> Shares(r, a, b)
    requires forall r :: r in got <==> r in all && !Hidden(pages, r)
    ensures ExactlyBetween(got, rows, a, b) <==>
              forall r :: r in rows && Shares(r, a, b) ==> (Hidden(pages, r) <==> !Between(r, a, b))
    ensures NoStranger(rows, a, b) ==> (ExactlyBetween(got, rows, a, b) <==> forall r :: r in all <==> r in got)
    ensures (forall r :: r in all <==> r in got) ==> (ExactlyBetween(got, rows, a, b) <==> NoStranger(rows, a, b))
  {
    hide Shares, Between, Hidden;
  }

  lemma PairIdTrimmed(a: string, b: string)
    requires a != "" && b != "" && Trimmed(a) && Trimmed(b)
    ensures TrimSpace(BuildConversationID(a, [b], "")) == BuildConversationID(a, [b], "")
  {
    BuiltIdTrimmed(a, [b], "");
  }

  /** No two messages between these phones carry the same timestamp. */
  ghost predicate DistinctTimes(table: seq<Row>, a: string, b: string) {
    forall r, r' | r in table && r' in table && Between(r, a, b) && Between(r', a, b) ::
      r != r' ==> r.createdAt != r'.createdAt
  }

  predicate ColonFreeRow(row: Row) {
    row.recipient.Some? ==> ColonFree(row.sender) && ColonFree(row.recipient.value)
  }

  lemma ColonFreeNoStranger(table: seq<Row>, a: string, b: string)
    requires ColonFree(a) && ColonFree(b) && forall r :: r in table ==> ColonFreeRow(r)
    ensures NoStranger(table, a, b)
  {
    hide BuildConversationID, SameDirect, ColonFree;
    forall r | r in table && Shares(r, a, b) ensures Between(r, a, b) {
      BuiltIdCollision(r.sender, [r.recipient.value], "", a, [b], "");
      DirectIdNamesPair(r.sender, r.recipient.value, a, b);
    }
  }

  /** Two conditions anyone can check make the round trip exact: no phone holds a colon, no two times are equal. */
  lemma ColonFreeRoundTrip(
    ops: seq<SendOp>, a: string, b: string, tables: seq<seq<Row>>, limit: int, pages: seq<Page>, fromA: bool)
    requires FreshIds(ops) && PairWalk(ops, a, b, tables, limit, pages, fromA)
    requires ColonFree(a) && ColonFree(b) && forall r :: r in RunSends(ops).messages ==> ColonFreeRow(r)
    requires DistinctTimes(RunSends(ops).messages, a, b)
    ensures var got := Collected(pages);
            && ExactlyBetween(got, RunSends(ops).messages, a, b)
            && Descending(got)
            && (|pages| - 1) * ClampLimit(limit) <= |got| < |pages| * ClampLimit(limit)
  {
    hide *;
    var rows := RunSends(ops).messages;
    var all := Conversation(rows, BuildConversationID(a, [b], ""));
    ColonFreeNoStranger(rows, a, b);
    ConversationDescending(ops, a, b);
    RunKeepsInv(ops);
    PairConversation(RunSends(ops), a, b);
    PairTimes(rows, all, a, b);
    DistinctNoTie(all, ClampLimit(limit));
    DirectRoundTrip(ops, a, b, tables, limit, pages, fromA);
  }

  lemma PairTimes(rows: seq<Row>, all: seq<Row>, a: string, b: string)
    requires NoStranger(rows, a, b) && DistinctTimes(rows, a, b) && forall r :: r in all <==> r in rows && Shares(r, a, b)
    requires Descending(all)
    ensures forall i, j :: 0 <= i < j < |all| ==> all[i].createdAt != all[j].createdAt
  {
    hide Shares, Between, Descending;
    forall r, r' | r in all && r' in all && r != r' ensures r.createdAt != r'.createdAt {
      assert Between(r, a, b) && Between(r', a, b);
    }
    DistinctInOrder(all);
  }

  lemma DistinctNoTie(all: seq<Row>, n: nat)
    requires n > 0 && Descending(all) && forall i, j :: 0 <= i < j < |all| ==> all[i].createdAt != all[j].createdAt
    ensures NoTieAtBoundary(all, n)
  {
    hide Pages, Flatten, Descending;
    DistinctTimesComplete(all, n);
    CompleteIff(all, n);
  }

  /** In a descending list, rows with pairwise different times have different times at every two places. */
  lemma DistinctInOrder(rows: seq<Row>)
    requires Descending(rows)
    requires forall r, r' :: r in rows && r' in rows && r != r' ==> r.createdAt != r'.createdAt
    ensures forall i, j :: 0 <= i < j < |rows| ==> rows[i].createdAt != rows[j].createdAt
  {
    hide Newer;
    forall i, j | 0 <= i < j < |rows| ensures rows[i].createdAt != rows[j].createdAt {
      NewerOrder(rows[i], rows[j], rows[j]);
      assert rows[i] in rows && rows[j] in rows;
    }
  }

  /**
   The two conditions are not necessary together: here a tie at a page boundary loses a message,
   a stranger's is filed under the pair, and it is the stranger's that is lost.
   */
  lemma TieHidesStranger()
    ensures var id := BuildConversationID("a", ["b:c"], "");
            var mine := Row("y", id, "a", Some("b:c"), None, "m", 0);
            var other := Row("x", id, "a:b", Some("c"), None, "m", 0);
            var table := [mine, other];
            && ValidTable(table) && WellFiled(mine) && WellFiled(other)
            && Fetch(table, id, "", 1) == Page([mine], "y") && Fetch(table, id, "y", 1) == Page([], "")
            && ExactlyBetween([mine], table, "a", "b:c")
            && !NoStranger(table, "a", "b:c") && !NoTieAtBoundary(table, 1)
  {
    var id := BuildConversationID("a", ["b:c"], "");
    var mine := Row("y", id, "a", Some("b:c"), None, "m", 0);
    var other := Row("x", id, "a:b", Some("c"), None, "m", 0);
    hide *;
    TiedRows(mine, other);
    WalkOfTied(mine, other);
    StrangerOfTied(mine, other, "a", "b:c");
  }

  lemma TiedRows(mine: Row, other: Row)
    requires mine == Row("y", BuildConversationID("a", ["b:c"], ""), "a", Some("b:c"), None, "m", 0)
    requires other == Row("x", mine.conversation, "a:b", Some("c"), None, "m", 0)
    ensures WellFiled(mine) && WellFiled(other) && mine.conversation != "" && Trimmed(mine.conversation)
    ensures Between(mine, "a", "b:c") && !Between(other, "a", "b:c")
  {
    ColonsCollide();
    BuiltIdTrimmed("a", ["b:c"], "");
    hide BuildConversationID;
    assert "a:b" in {"a:b", "c"} && "a:b" !in {"a", "b:c"};
  }

  lemma WalkOfTied(mine: Row, other: Row)
    requires mine.id == "y" && other.id == "x" && mine.createdAt == other.createdAt
    requires mine.conversation == other.conversation != "" && Trimmed(mine.conversation)
    ensures ValidTable([mine, other]) && !NoTieAtBoundary([mine, other], 1)
    ensures Fetch([mine, other], mine.conversation, "", 1) == Page([mine], "y")
    ensures Fetch([mine, other], mine.conversation, "y", 1) == Page([], "")
  {
    assert Less("x", "y");
    assert Trimmed("x") && Trimmed("y");
    FirstOfTwo(mine, other);
    NoneAfterTie(mine, other, mine.conversation);
    assert [mine, other][1 * 1 - 1].createdAt == [mine, other][1 * 1].createdAt;
  }

  lemma StrangerOfTied(mine: Row, other: Row, a: string, b: string)
    requires WellFiled(other) && other.conversation == BuildConversationID(a, [b], "")
    requires Between(mine, a, b) && !Between(other, a, b)
    ensures ExactlyBetween([mine], [mine, other], a, b) && !NoStranger([mine, other], a, b)
  {
    FiledUnderPair(other, a, b);
    hide Between, Shares, WellFiled;
    assert other in [mine, other];
  }

  // ---------------------------------------------------------------- delivery accounting

  /** What one send gives one user, by channel: at most one payload. */
  function Due(op: SendOp, user: string, online: bool): seq<Payload> {
    if Accepted(op.req, op.env) && user in Resolved(op.req, op.env.members) && (user in op.env.online <==> online)
    then [PayloadFor(EventOf(NewRow(op.req, op.env)), user)]
    else []
  }

  /** Over a run: the payloads for this user, in send order, of the sends that found it online (or offline). */
  function DueOver(ops: seq<SendOp>, user: string, online: bool): seq<Payload> {
    if ops == [] then []
    else DueOver(ops[..|ops| - 1], user, online) + Due(ops[|ops| - 1], user, online)
  }

  /** What a delivered payload carries. */
  lemma {:induction false} PayloadsCarryMessage(ops: seq<SendOp>, user: string, online: bool, p: Payload)
    requires p in DueOver(ops, user, online)
    ensures exists i :: 0 <= i < |ops| && Accepted(ops[i].req, ops[i].env)
                        && (user in ops[i].env.online <==> online)
                        && p == Payload(ops[i].env.newId, TrimSpace(ops[i].req.sender), user, ops[i].req.body, ops[i].env.now)
  {
    hide Validates, BuildConversationID, TrimSpace, Resolved;
    var n := |ops| - 1;
    if p in DueOver(ops[..n], user, online) {
      PayloadsCarryMessage(ops[..n], user, online, p);
      var i :| 0 <= i < n && Accepted(ops[..n][i].req, ops[..n][i].env)
               && (user in ops[..n][i].env.online <==> online)
               && p == Payload(ops[..n][i].env.newId, TrimSpace(ops[..n][i].req.sender), user, ops[..n][i].req.body, ops[..n][i].env.now);
      assert ops[..n][i] == ops[i];
    } else {
      assert p in Due(ops[n], user, online);
    }
  }

  function Reversed<T>(s: seq<T>): seq<T> {
    if s == [] then [] else Reversed(s[1..]) + [s[0]]
  }

  lemma LastIsNew(s: seq<string>)
    requires NoDuplicates(s) && s != []
    ensures NoDuplicates(s[..|s| - 1]) && s[|s| - 1] !in s[..|s| - 1]
    ensures forall x :: x in s <==> x in s[..|s| - 1] || x == s[|s| - 1]
  {
    assert s == s[..|s| - 1] + [s[|s| - 1]];
  }

  lemma {:induction false} QueuesAfter(s: Store, recipients: seq<string>, m: Message, online: set<string>, user: string)
    requires NoDuplicates(recipients)
    ensures var t := DeliverAll(s, recipients, m, online);
            && ListOf(t.published, user) ==
               ListOf(s.published, user) + (if user in recipients && user in online then [PayloadFor(m, user)] else [])
            && ListOf(t.offline, user) ==
               (if user in recipients && user !in online then [PayloadFor(m, user)] else []) + ListOf(s.offline, user)
  {
    hide PayloadFor, Deliver;
    if recipients != [] {
      var n := |recipients| - 1;
      LastIsNew(recipients);
      hide NoDuplicates;
      QueuesAfter(s, recipients[..n], m, online, user);
      var t := DeliverAll(s, recipients[..n], m, online);
      QueuesAfterOne(t, m, recipients[n], recipients[n] in online, user);
      assert DeliverAll(s, recipients, m, online) == Deliver(t, m, recipients[n], recipients[n] in online);
      hide DeliverAll, ListOf;
    }
  }

  lemma QueuesAfterOne(s: Store, m: Message, last: string, online: bool, user: string)
    ensures var t := Deliver(s, m, last, online);
            && ListOf(t.published, user) ==
               ListOf(s.published, user) + (if user == last && online then [PayloadFor(m, user)] else [])
            && ListOf(t.offline, user) ==
               (if user == last && !online then [PayloadFor(m, user)] else []) + ListOf(s.offline, user)
  {
    hide PayloadFor;
  }

  /** Online recipients, and only they, gain a "delivered" row; no other row moves. */
  lemma {:induction false} StatusAfter(s: Store, recipients: seq<string>, m: Message, online: set<string>, k: (string, string))
    ensures var t := DeliverAll(s, recipients, m, online);
            if k.0 == m.id && k.1 in recipients && k.1 in online then k in t.status && t.status[k] == Delivered
            else (k in t.status <==> k in s.status) && (k in s.status ==> t.status[k] == s.status[k])
  {
    hide PayloadFor;
    if recipients != [] {
      var n := |recipients| - 1;
      StatusAfter(s, recipients[..n], m, online, k);
      assert k.1 in recipients <==> k.1 in recipients[..n] || k.1 == recipients[n];
    }
  }

  /**
   Over a whole run with presence changing between sends, a user's publish log is the messages
   that found it online, in send order, and its offline list read from the tail is the messages
   that found it offline, in send order.
   */
  lemma {:induction false} QueuesOverRun(ops: seq<SendOp>, user: string)
    ensures var s := RunSends(ops).store;
            && ListOf(s.published, user) == DueOver(ops, user, true)
            && Reversed(ListOf(s.offline, user)) == DueOver(ops, user, false)
  {
    hide DeliverAll, PayloadFor, NewRow, Resolved, Validates;
    if ops != [] {
      var n := |ops| - 1;
      var op := ops[n];
      var chat := RunSends(ops[..n]);
      QueuesOverRun(ops[..n], user);
      if Accepted(op.req, op.env) {
        var row := NewRow(op.req, op.env);
        var rs := Resolved(op.req, op.env.members);
        ResolvedDistinct(op.req, op.env.members);
        QueuesAfter(MarkSent(chat.store, row), rs, EventOf(row), op.env.online, user);
        var before := ListOf(chat.store.offline, user);
        ReversedCons(PayloadFor(EventOf(row), user), before);
        assert [] + before == before;
      } else {
        assert Due(op, user, true) == Due(op, user, false) == [];
      }
    }
  }

  lemma ReversedCons<T>(x: T, s: seq<T>)
    ensures Reversed([x] + s) == Reversed(s) + [x]
  {
    assert ([x] + s)[1..] == s;
  }

  lemma ResolvedDistinct(req: Request, members: seq<string>)
    ensures NoDuplicates(Resolved(req, members))
    ensures TrimSpace(req.sender) !in Resolved(req, members)
  {
  }

  /**
   The status rows of every accepted message: "sent" for its sender, "delivered" for the
   recipients found online, none for those found offline, and none for anyone else.
   */
  lemma {:induction false} StatusesOverRun(ops: seq<SendOp>, i: nat, user: string)
    requires FreshIds(ops) && i < |ops| && Accepted(ops[i].req, ops[i].env)
    ensures var table := RunSends(ops).store.status;
            var req, env := ops[i].req, ops[i].env;
            var k := (env.newId, user);
            if user == TrimSpace(req.sender) then k in table && table[k] == Sent
            else if user in Resolved(req, env.members) && user in env.online then k in table && table[k] == Delivered
            else k !in table
  {
    hide Accepted, NewRow, Send, Resolved, ChatInv;
    var n := |ops| - 1;
    var op := ops[n];
    var k := (ops[i].env.newId, user);
    var chat := RunSends(ops[..n]);
    StatusAfterSend(chat, op.req, op.env, k);
    if i < n {
      assert ops[..n][i] == ops[i];
      StatusesOverRun(ops[..n], i, user);
    } else {
      RunKeepsInv(ops[..n]);
      NoStatusYet(chat, ops[..n], k);
    }
  }

  lemma NoStatusYet(chat: Chat, ops: seq<SendOp>, k: (string, string))
    requires ChatInv(chat) && forall r :: r in chat.messages ==> IdOf(ops, r.id)
    requires forall op :: op in ops ==> op.env.newId != k.0
    ensures k !in chat.store.status
  {
  }

  lemma StatusAfterSend(chat: Chat, req: Request, env: Env, k: (string, string))
    ensures var before, after := chat.store.status, Send(chat, req, env).store.status;
            if Accepted(req, env) && k.0 == env.newId && k.1 == TrimSpace(req.sender) then
              k in after && after[k] == Sent
            else if Accepted(req, env) && k.0 == env.newId && k.1 in Resolved(req, env.members) && k.1 in env.online then
              k in after && after[k] == Delivered
            else (k in after <==> k in before) && (k in before ==> after[k] == before[k])
  {
    hide DeliverAll, Validates, BuildConversationID, Resolved;
    if Accepted(req, env) {
      var row := NewRow(req, env);
      ResolvedDistinct(req, env.members);
      StatusAfter(MarkSent(chat.store, row), Resolved(req, env.members), EventOf(row), env.online, k);
    }
  }
}
