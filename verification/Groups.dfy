/**
 Group membership as a state machine over two tables, `groups` and `group_members`, with no
 foreign key between them. Each handler is one atomic step; what it takes from outside (the
 generated id and code, NOW(), the row LIMIT 1 picks among ties) is carried by its label.
*/
module Groups {
  import opened Text
  import opened Recipients

  datatype Role = Admin | Member
  datatype Group = Group(name: string, createdBy: string, code: string, createdAt: int, updatedAt: int)
  datatype Membership = Membership(role: Role, addedBy: string, createdAt: int)
  type Members = map<(string, string), Membership>

  datatype Tables = Tables(groups: map<string, Group>, members: Members)

  datatype Op =
    | Create(caller: string, name: string, phones: seq<string>, gid: string, code: string, now: int)
    | Add(caller: string, gid: string, phones: seq<string>, now: int)
    | Remove(caller: string, gid: string, target: string, now: int)
    | Promote(caller: string, gid: string, target: string, now: int)
    | Demote(caller: string, gid: string, target: string, now: int)
    | Leave(caller: string, gid: string, successor: string, now: int)
    | Reset(caller: string, gid: string, code: string, now: int)
    | Join(caller: string, code: string, now: int)

  datatype Answer = Done | Unauthorized | BadRequest | Forbidden | Failed

  // ---------------------------------------------------------------- queries

  predicate IsMember(m: Members, g: string, u: string) {
    (g, u) in m
  }

  predicate IsAdmin(m: Members, g: string, u: string) {
    (g, u) in m && m[(g, u)].role.Admin?
  }

  function MembersOf(m: Members, g: string): (r: set<string>)
    ensures forall u :: u in r <==> IsMember(m, g, u)
  {
    set k | k in m && k.0 == g :: k.1
  }

  function AdminsOf(m: Members, g: string): (r: set<string>)
    ensures forall u :: u in r <==> IsAdmin(m, g, u)
  {
    set k | k in m && k.0 == g && m[k].role.Admin? :: k.1
  }

  function RowsOf(m: Members, g: string): Members {
    map k | k in m && k.0 == g :: m[k]
  }

  /** Another group already holds this invite code, so the UNIQUE constraint rejects it. */
  predicate CodeTaken(groups: map<string, Group>, code: string, gid: string) {
    exists g :: g in groups && g != gid && groups[g].code == code
  }

  /** The UNIQUE constraint on invite codes. */
  predicate UniqueCodes(groups: map<string, Group>) {
    forall g, h :: g in groups && h in groups && g != h ==> groups[g].code != groups[h].code
  }

  ghost function GroupWithCode(groups: map<string, Group>, code: string): (r: Option<string>)
    ensures r.Some? ==> r.value in groups && groups[r.value].code == code
    ensures r.None? ==> forall g :: g in groups ==> groups[g].code != code
  {
    if exists g :: g in groups && groups[g].code == code then
      var g :| g in groups && groups[g].code == code; Some(g)
    else None
  }

  /** The last admin is leaving while others stay. */
  predicate NeedsSuccessor(m: Members, g: string, u: string) {
    IsAdmin(m, g, u) && |AdminsOf(m, g)| <= 1 && MembersOf(m, g) != {u}
  }

  /** A row ORDER BY created_at LIMIT 1 may return among the other members. */
  predicate Eldest(m: Members, g: string, u: string, s: string) {
    && IsMember(m, g, s) && s != u
    && forall k :: k in m && k.0 == g && k.1 != u ==> m[(g, s)].createdAt <= m[k].createdAt
  }

  // ---------------------------------------------------------------- the steps

  /** The checks of each handler, in order. */
  ghost function Respond(t: Tables, op: Op): Answer {
    if TrimSpace(op.caller) == "" then Unauthorized
    else match op
      case Create(_, name, _, gid, code, _) =>
        if TrimSpace(name) == "" then BadRequest
        else if gid in t.groups || CodeTaken(t.groups, code, gid) then Failed
        else Done
      case Add(u, g, _, _) => if IsAdmin(t.members, g, u) then Done else Forbidden
      case Remove(u, g, target, _) =>
        if !IsAdmin(t.members, g, u) then Forbidden
        else if target == "" then BadRequest
        else if IsAdmin(t.members, g, target) && |AdminsOf(t.members, g)| <= 1 then BadRequest
        else Done
      case Promote(u, g, _, _) => if IsAdmin(t.members, g, u) then Done else Forbidden
      case Demote(u, g, target, _) =>
        if !IsAdmin(t.members, g, u) then Forbidden
        else if !IsAdmin(t.members, g, target) then BadRequest
        else if |AdminsOf(t.members, g)| <= 1 then BadRequest
        else Done
      case Leave(u, g, _, _) => if g == "" || !IsMember(t.members, g, u) then BadRequest else Done
      case Reset(u, g, code, _) =>
        if !IsAdmin(t.members, g, u) then Forbidden
        else if g in t.groups && CodeTaken(t.groups, code, g) then Failed
        else Done
      case Join(_, code, _) =>
        if TrimSpace(code) == "" || GroupWithCode(t.groups, TrimSpace(code)).None? then BadRequest else Done
  }

  function Touch(groups: map<string, Group>, g: string, now: int): map<string, Group> {
    if g in groups then groups[g := groups[g].(updatedAt := now)] else groups
  }

  function Keys(g: string, phones: seq<string>): set<(string, string)> {
    set p | p in phones :: (g, p)
  }

  /** INSERT ... ON CONFLICT DO NOTHING for each phone. */
  function InsertMissing(m: Members, g: string, phones: seq<string>, inviter: string, now: int): Members {
    (map k | k in Keys(g, phones) :: Membership(Member, inviter, now)) + m
  }

  /** UPDATE group_members SET role. */
  function SetRole(m: Members, g: string, u: string, role: Role): Members {
    if (g, u) in m then m[(g, u) := m[(g, u)].(role := role)] else m
  }

  ghost function After(t: Tables, op: Op): Tables {
    if !Respond(t, op).Done? then t
    else match op
      case Create(u, name, phones, gid, code, now) =>
        var owner := if (gid, u) in t.members then t.members[(gid, u)].(role := Admin) else Membership(Admin, u, now);
        Tables(t.groups[gid := Group(TrimSpace(name), u, code, now, now)],
               InsertMissing(t.members[(gid, u) := owner], gid, Dedupe(phones, u), u, now))
      case Add(u, g, phones, now) =>
        Tables(Touch(t.groups, g, now), InsertMissing(t.members, g, Dedupe(phones, ""), u, now))
      case Remove(u, g, target, now) => Tables(Touch(t.groups, g, now), t.members - {(g, target)})
      case Promote(u, g, target, now) => Tables(Touch(t.groups, g, now), SetRole(t.members, g, target, Admin))
      case Demote(u, g, target, now) => Tables(Touch(t.groups, g, now), SetRole(t.members, g, target, Member))
      case Leave(u, g, s, now) =>
        var m := (if NeedsSuccessor(t.members, g, u) then SetRole(t.members, g, s, Admin) else t.members) - {(g, u)};
        Tables(if MembersOf(m, g) == {} then t.groups - {g} else Touch(t.groups, g, now), m)
      case Reset(u, g, code, now) =>
        Tables(if g in t.groups then t.groups[g := t.groups[g].(code := code, updatedAt := now)] else t.groups, t.members)
      case Join(u, code, now) =>
        var g := GroupWithCode(t.groups, TrimSpace(code)).value;
        Tables(Touch(t.groups, g, now), InsertMissing(t.members, g, [u], u, now))
  }

  /** The label's successor is one the query could return. */
  ghost predicate Legal(t: Tables, op: Op) {
    (op.Leave? && Respond(t, op).Done? && NeedsSuccessor(t.members, op.gid, op.caller)) ==>
      Eldest(t.members, op.gid, op.caller, op.successor)
  }

  /** The group a request is about, if there is one. */
  ghost function Target(t: Tables, op: Op): Option<string> {
    if op.Join? then GroupWithCode(t.groups, TrimSpace(op.code)) else Some(op.gid)
  }

  // ---------------------------------------------------------------- who may do what

  /** The user's row in the group has role admin. */
  predicate Leads(t: Tables, g: string, u: string) {
    (g, u) in t.members && t.members[(g, u)].role == Admin
  }

  /** Somebody else's row in the group has role admin. */
  predicate OtherLeader(t: Tables, g: string, u: string) {
    exists k :: k in t.members && k.0 == g && k.1 != u && t.members[k].role == Admin
  }

  lemma SoleLeader(t: Tables, g: string, u: string)
    requires Leads(t, g, u)
    ensures |AdminsOf(t.members, g)| <= 1 <==> !OtherLeader(t, g, u)
  {
    var A := AdminsOf(t.members, g);
    assert u in A;
    if k :| k in t.members && k.0 == g && k.1 != u && t.members[k].role == Admin {
      assert k == (g, k.1) && k.1 in A - {u};
      assert |A - {u}| == |A| - 1;
    } else {
      forall v ensures v in A <==> v == u {
        if v in A { assert (g, v) in t.members; }
      }
      assert A == {u};
    }
  }

  /** Every answer, from the rows alone; only an accepted request changes anything. */
  lemma AnswerExact(t: Tables, op: Op)
    ensures Respond(t, op) ==
            if TrimSpace(op.caller) == "" then Unauthorized
            else match op
              case Create(_, name, _, gid, code, _) =>
                if TrimSpace(name) == "" then BadRequest
                else if gid in t.groups || (exists h :: h in t.groups && t.groups[h].code == code) then Failed
                else Done
              case Add(u, g, _, _) => if Leads(t, g, u) then Done else Forbidden
              case Remove(u, g, x, _) =>
                if !Leads(t, g, u) then Forbidden
                else if x == "" || (Leads(t, g, x) && !OtherLeader(t, g, x)) then BadRequest
                else Done
              case Promote(u, g, _, _) => if Leads(t, g, u) then Done else Forbidden
              case Demote(u, g, x, _) =>
                if !Leads(t, g, u) then Forbidden
                else if !Leads(t, g, x) || !OtherLeader(t, g, x) then BadRequest
                else Done
              case Leave(u, g, _, _) => if g != "" && (g, u) in t.members then Done else BadRequest
              case Reset(u, g, code, _) =>
                if !Leads(t, g, u) then Forbidden
                else if g in t.groups && (exists h :: h in t.groups && h != g && t.groups[h].code == code) then Failed
                else Done
              case Join(_, code, _) =>
                if TrimSpace(code) != "" && (exists h :: h in t.groups && t.groups[h].code == TrimSpace(code)) then Done
                else BadRequest
    ensures !Respond(t, op).Done? ==> After(t, op) == t
  {
    hide TrimSpace, OtherLeader, AdminsOf, After;
    if (op.Remove? || op.Demote?) && Leads(t, op.gid, op.target) { SoleLeader(t, op.gid, op.target); }
    RefusedKeeps(t, op);
  }

  lemma RefusedKeeps(t: Tables, op: Op)
    ensures !Respond(t, op).Done? ==> After(t, op) == t
  {
    hide Respond;
  }

  datatype Fact = Belongs | Missing | Administers | Ordinary | Exists | Gone | HasCode(code: string)

  predicate Holds(t: Tables, f: Fact, g: string, u: string) {
    match f
    case Belongs => (g, u) in t.members
    case Missing => (g, u) !in t.members
    case Administers => Leads(t, g, u)
    case Ordinary => !Leads(t, g, u)
    case Exists => g in t.groups
    case Gone => g !in t.groups
    case HasCode(code) => g in t.groups && t.groups[g].code == code
  }

  predicate Lists(phones: seq<string>, u: string) {
    u != "" && exists i :: 0 <= i < |phones| && TrimSpace(phones[i]) == u
  }

  /** An admin removes the user, who is not the last admin, or the user leaves. */
  predicate Parts(t: Tables, op: Op, g: string, u: string) {
    || (op.Remove? && op.gid == g && op.target == u && Leads(t, g, op.caller) && (Leads(t, g, u) ==> OtherLeader(t, g, u)))
    || (op.Leave? && op.gid == g && op.caller == u)
  }

  /** What entitles this request to make the fact true: who asked, and what the rows said then. */
  ghost predicate Cause(t: Tables, op: Op, f: Fact, g: string, u: string) {
    match f
    case Belongs =>
      || (op.Create? && op.gid == g && g !in t.groups && (u == op.caller || Lists(op.phones, u)))
      || (op.Add? && op.gid == g && Leads(t, g, op.caller) && Lists(op.phones, u))
      || (op.Join? && op.caller == u && g in t.groups && t.groups[g].code == TrimSpace(op.code))
    case Missing => Parts(t, op, g, u)
    case Administers =>
      || (op.Create? && op.gid == g && g !in t.groups && op.caller == u)
      || (op.Promote? && op.gid == g && op.target == u && Leads(t, g, op.caller))
      || (op.Leave? && op.gid == g && op.successor == u && op.caller != u
          && Leads(t, g, op.caller) && !OtherLeader(t, g, op.caller) && (g, u) in t.members
          && forall k :: k in t.members && k.0 == g && k.1 != op.caller ==> t.members[(g, u)].createdAt <= t.members[k].createdAt)
    case Ordinary =>
      || (op.Demote? && op.gid == g && op.target == u && Leads(t, g, op.caller) && OtherLeader(t, g, u))
      || Parts(t, op, g, u)
    case Exists => op.Create? && op.gid == g && TrimSpace(op.name) != ""
    case Gone => op.Leave? && op.gid == g && (g, op.caller) in t.members
                 && forall k :: k in t.members && k.0 == g ==> k.1 == op.caller
    case HasCode(code) =>
      || (op.Create? && op.gid == g && g !in t.groups && op.code == code)
      || (op.Reset? && op.gid == g && op.code == code && Leads(t, g, op.caller))
  }

  // ---------------------------------------------------------------- what one step changes

  lemma InsertRoster(m: Members, g: string, phones: seq<string>, inviter: string, now: int)
    ensures var n := InsertMissing(m, g, phones, inviter, now);
            && MembersOf(n, g) == MembersOf(m, g) + (set p | p in phones)
            && AdminsOf(n, g) == AdminsOf(m, g)
  {
  }

  lemma SetRoleRoster(m: Members, g: string, u: string, role: Role)
    ensures var n := SetRole(m, g, u, role);
            && MembersOf(n, g) == MembersOf(m, g)
            && AdminsOf(n, g) == if role.Admin? then AdminsOf(m, g) + {u} * MembersOf(m, g) else AdminsOf(m, g) - {u}
  {
  }

  lemma DeleteRoster(m: Members, g: string, u: string)
    ensures MembersOf(m - {(g, u)}, g) == MembersOf(m, g) - {u}
    ensures AdminsOf(m - {(g, u)}, g) == AdminsOf(m, g) - {u}
  {
  }

  lemma OwnerRoster(m: Members, g: string, u: string, row: Membership)
    requires row.role.Admin?
    ensures MembersOf(m[(g, u) := row], g) == MembersOf(m, g) + {u}
    ensures AdminsOf(m[(g, u) := row], g) == AdminsOf(m, g) + {u}
  {
  }

  /** Who is in the group, and who administers it, after each accepted request. */
  lemma RosterEffect(t: Tables, op: Op)
    requires Respond(t, op).Done? && Legal(t, op)
    ensures var g := Target(t, op).value;
            var M, A := MembersOf(t.members, g), AdminsOf(t.members, g);
            var M', A' := MembersOf(After(t, op).members, g), AdminsOf(After(t, op).members, g);
            match op
            case Create(u, _, phones, _, _, _) => M' == M + {u} + (set p | p in Dedupe(phones, u)) && A' == A + {u}
            case Add(_, _, phones, _) => M' == M + (set p | p in Dedupe(phones, "")) && A' == A
            case Remove(_, _, x, _) => M' == M - {x} && A' == A - {x}
            case Promote(_, _, x, _) => M' == M && A' == A + {x} * M
            case Demote(_, _, x, _) => M' == M && A' == A - {x}
            case Leave(u, _, s, _) => M' == M - {u} && A' == A + (if NeedsSuccessor(t.members, g, u) then {s} else {}) - {u}
            case Reset(_, _, _, _) => M' == M && A' == A
            case Join(u, _, _) => M' == M + {u} && A' == A
  {
    hide Dedupe, TrimSpace, CodeTaken, MembersOf, AdminsOf, InsertMissing, SetRole, NeedsSuccessor, GroupWithCode, IsAdmin;
    var m := t.members;
    match op {
      case Create(u, _, phones, g, _, now) =>
        var owner := if (g, u) in m then m[(g, u)].(role := Admin) else Membership(Admin, u, now);
        OwnerRoster(m, g, u, owner);
        InsertRoster(m[(g, u) := owner], g, Dedupe(phones, u), u, now);
      case Add(u, g, phones, now) => InsertRoster(m, g, Dedupe(phones, ""), u, now);
      case Remove(_, g, x, _) => DeleteRoster(m, g, x);
      case Promote(_, g, x, _) => SetRoleRoster(m, g, x, Admin);
      case Demote(_, g, x, _) => SetRoleRoster(m, g, x, Member);
      case Leave(u, g, s, _) =>
        SetRoleRoster(m, g, s, Admin);
        DeleteRoster(if NeedsSuccessor(m, g, u) then SetRole(m, g, s, Admin) else m, g, u);
      case Reset(_, _, _, _) =>
      case Join(u, _, now) => InsertRoster(m, Target(t, op).value, [u], u, now);
    }
  }

  /** Rows of people the request does not name are left exactly as they were, in every group. */
  lemma BystandersKept(t: Tables, op: Op, k: (string, string))
    requires k in t.members
    requires op.Create? ==> k != (op.gid, op.caller)
    requires op.Remove? || op.Promote? || op.Demote? ==> k != (op.gid, op.target)
    requires op.Leave? ==> k != (op.gid, op.caller) && k != (op.gid, op.successor)
    ensures k in After(t, op).members && After(t, op).members[k] == t.members[k]
  {
    hide Dedupe, TrimSpace, CodeTaken, MembersOf, AdminsOf, GroupWithCode, Respond;
  }

  /** A membership row that was not there before says who brought the person in, and when. */
  lemma NewRows(t: Tables, op: Op, k: (string, string))
    requires k in After(t, op).members && k !in t.members
    ensures (op.Create? || op.Add? || op.Join?) && Target(t, op) == Some(k.0)
    ensures After(t, op).members[k] ==
            Membership(if op.Create? && k.1 == op.caller then Admin else Member, op.caller, op.now)
  {
    hide Dedupe, TrimSpace, CodeTaken, MembersOf, AdminsOf, GroupWithCode, Respond;
    RespondTargets(t, op);
  }

  /** The group row keeps its name and origin; only a reset changes the code; every change is dated. */
  lemma GroupRow(t: Tables, op: Op)
    requires Respond(t, op).Done? && !op.Create?
    requires Target(t, op).value in t.groups && Target(t, op).value in After(t, op).groups
    ensures var g := Target(t, op).value;
            After(t, op).groups[g] ==
            t.groups[g].(updatedAt := op.now, code := if op.Reset? then op.code else t.groups[g].code)
  {
    hide Dedupe, TrimSpace, CodeTaken, MembersOf, AdminsOf, GroupWithCode, Respond, InsertMissing, SetRole, NeedsSuccessor;
  }

  lemma RespondTargets(t: Tables, op: Op)
    ensures Respond(t, op).Done? ==> Target(t, op).Some?
  {
  }

  /** A request touches only its own group. */
  lemma OtherGroupsKept(t: Tables, op: Op, h: string)
    requires Target(t, op) != Some(h)
    ensures h in After(t, op).groups <==> h in t.groups
    ensures h in t.groups ==> After(t, op).groups[h] == t.groups[h]
    ensures RowsOf(After(t, op).members, h) == RowsOf(t.members, h)
  {
    hide RowsOf;
    hide Dedupe, TrimSpace, CodeTaken, MembersOf, AdminsOf, Respond, GroupWithCode, InsertMissing, SetRole, NeedsSuccessor;
    RespondTargets(t, op);
    if Respond(t, op).Done? {
      var m := t.members;
      var g := Target(t, op).value;
      match op {
        case Create(u, _, phones, _, _, now) =>
          var owner := if (g, u) in m then m[(g, u)].(role := Admin) else Membership(Admin, u, now);
          ForeignEdits(m, g, h, u, [], u, now, owner);
          ForeignEdits(m[(g, u) := owner], g, h, u, Dedupe(phones, u), u, now, owner);
        case Add(u, _, phones, now) => ForeignEdits(m, g, h, u, Dedupe(phones, ""), u, now, Membership(Admin, u, now));
        case Remove(u, _, x, now) => ForeignEdits(m, g, h, x, [], u, now, Membership(Admin, u, now));
        case Promote(u, _, x, now) => ForeignEdits(m, g, h, x, [], u, now, Membership(Admin, u, now));
        case Demote(u, _, x, now) => ForeignEdits(m, g, h, x, [], u, now, Membership(Member, u, now));
        case Leave(u, _, s, now) =>
          ForeignEdits(m, g, h, s, [], u, now, Membership(Admin, u, now));
          ForeignEdits(m, g, h, u, [], u, now, Membership(Admin, u, now));
          ForeignEdits(SetRole(m, g, s, Admin), g, h, u, [], u, now, Membership(Admin, u, now));
        case Reset(_, _, _, _) =>
        case Join(u, _, now) => ForeignEdits(m, g, h, u, [u], u, now, Membership(Admin, u, now));
      }
    }
  }

  lemma ForeignEdits(m: Members, g: string, h: string, u: string, phones: seq<string>, inviter: string, now: int, row: Membership)
    requires g != h
    ensures RowsOf(InsertMissing(m, g, phones, inviter, now), h) == RowsOf(m, h)
    ensures RowsOf(SetRole(m, g, u, row.role), h) == RowsOf(m, h)
    ensures RowsOf(m - {(g, u)}, h) == RowsOf(m, h)
    ensures RowsOf(m[(g, u) := row], h) == RowsOf(m, h)
  {
  }

  /** A row that stays keeps who brought the person in and when; only its role can change. */
  lemma RowKept(t: Tables, op: Op, k: (string, string))
    requires k in t.members && k in After(t, op).members
    ensures After(t, op).members[k].addedBy == t.members[k].addedBy
    ensures After(t, op).members[k].createdAt == t.members[k].createdAt
  {
    hide Dedupe, TrimSpace, CodeTaken, MembersOf, AdminsOf, GroupWithCode, Respond, NeedsSuccessor;
  }

  /** A created group carries the name, creator, code and dates of its request. */
  lemma CreatedGroup(t: Tables, op: Op)
    requires op.Create? && Respond(t, op).Done?
    ensures op.gid in After(t, op).groups
    ensures var row := After(t, op).groups[op.gid];
            && row.name == TrimSpace(op.name) && row.createdBy == op.caller && row.code == op.code
            && row.createdAt == op.now && row.updatedAt == op.now
    ensures Leads(After(t, op), op.gid, op.caller)
  {
    hide Dedupe, TrimSpace, CodeTaken, MembersOf, AdminsOf;
  }

  lemma ListsKept(phones: seq<string>, skip: string, u: string)
    requires u in Dedupe(phones, skip)
    ensures Lists(phones, u)
  {
    hide TrimSpace, Dedupe;
    DedupeMembers(phones, skip, u);
  }

  /** Facts about another group do not change. */
  lemma FactElsewhere(t: Tables, op: Op, f: Fact, g: string, u: string)
    requires Target(t, op) != Some(g)
    ensures Holds(After(t, op), f, g, u) <==> Holds(t, f, g, u)
  {
    hide After, Respond, Target;
    OtherGroupsKept(t, op, g);
    assert (g, u) in t.members <==> (g, u) in RowsOf(t.members, g);
    assert (g, u) in After(t, op).members <==> (g, u) in RowsOf(After(t, op).members, g);
  }

  lemma LeadsIsAdmin(t: Tables, g: string, u: string)
    ensures Leads(t, g, u) <==> u in AdminsOf(t.members, g)
    ensures (g, u) in t.members <==> u in MembersOf(t.members, g)
  {
  }

  /** How a person's place in a group can change. */
  lemma RosterCause(t: Tables, op: Op, f: Fact, g: string, u: string)
    requires Respond(t, op).Done? && Legal(t, op) && Target(t, op) == Some(g)
    requires !Holds(t, f, g, u) && Holds(After(t, op), f, g, u)
    requires f.Belongs? || f.Missing? || f.Administers? || f.Ordinary?
    ensures Cause(t, op, f, g, u)
  {
    AnswerExact(t, op);
    LeadsIsAdmin(t, g, u);
    LeadsIsAdmin(After(t, op), g, u);
    if op.Create? || op.Add? || op.Join? {
      EntryCause(t, op, f, g, u);
    } else {
      RosterEffect(t, op);
      SuccessorCause(t, op);
      hide Respond, After, Legal, Leads, OtherLeader, TrimSpace, Dedupe, Lists, AdminsOf, MembersOf, NeedsSuccessor, CodeTaken,
           GroupWithCode;
    }
  }

  lemma EntryCause(t: Tables, op: Op, f: Fact, g: string, u: string)
    requires Respond(t, op).Done? && Legal(t, op) && Target(t, op) == Some(g) && (op.Create? || op.Add? || op.Join?)
    requires !Holds(t, f, g, u) && Holds(After(t, op), f, g, u)
    requires f.Belongs? || f.Missing? || f.Administers? || f.Ordinary?
    ensures Cause(t, op, f, g, u)
  {
    AnswerExact(t, op);
    RosterEffect(t, op);
    LeadsIsAdmin(t, g, u);
    LeadsIsAdmin(After(t, op), g, u);
    hide Respond, After, Legal, Leads, OtherLeader, TrimSpace, Dedupe, Lists, AdminsOf, MembersOf, NeedsSuccessor, CodeTaken;
    match op {
      case Create(c, _, phones, _, _, _) => if u in Dedupe(phones, c) { ListsKept(phones, c, u); }
      case Add(_, _, phones, _) => if u in Dedupe(phones, "") { ListsKept(phones, "", u); }
      case _ =>
    }
  }

  /** A successor is chosen only for a sole admin, among the members that stay. */
  lemma SuccessorCause(t: Tables, op: Op)
    requires Respond(t, op).Done? && Legal(t, op)
    ensures op.Leave? && NeedsSuccessor(t.members, op.gid, op.caller) ==>
              Cause(t, op, Administers, op.gid, op.successor)
  {
    hide TrimSpace, Respond, MembersOf, AdminsOf, OtherLeader;
    if op.Leave? && NeedsSuccessor(t.members, op.gid, op.caller) {
      SoleLeader(t, op.gid, op.caller);
    }
  }

  /** How a group and its code can change. */
  lemma GroupCause(t: Tables, op: Op, f: Fact, g: string, u: string)
    requires Respond(t, op).Done? && Target(t, op) == Some(g)
    requires !Holds(t, f, g, u) && Holds(After(t, op), f, g, u)
    requires f.Exists? || f.Gone? || f.HasCode?
    ensures Cause(t, op, f, g, u)
  {
    AnswerExact(t, op);
    if op.Leave? { LastLeaves(t, op); }
    hide Respond, TrimSpace, Dedupe, Lists, AdminsOf, MembersOf, NeedsSuccessor, CodeTaken, InsertMissing, SetRole;
  }

  lemma LastLeaves(t: Tables, op: Op)
    requires op.Leave? && Respond(t, op).Done?
    ensures After(t, op).groups == if forall k :: k in t.members && k.0 == op.gid ==> k.1 == op.caller
                                   then t.groups - {op.gid} else Touch(t.groups, op.gid, op.now)
    ensures (op.gid, op.caller) in t.members
  {
    hide TrimSpace, Dedupe, AdminsOf, NeedsSuccessor, Touch;
    var m := After(t, op).members;
    if k :| k in t.members && k.0 == op.gid && k.1 != op.caller {
      assert k in m && k == (op.gid, k.1);
      assert k.1 in MembersOf(m, op.gid);
    } else {
      assert forall v :: v !in MembersOf(m, op.gid);
      assert MembersOf(m, op.gid) == {};
    }
  }

  /** Whatever a request makes true of a group or a person in it, the requester was entitled to. */
  lemma StepCause(t: Tables, op: Op, f: Fact, g: string, u: string)
    requires Legal(t, op) && !Holds(t, f, g, u) && Holds(After(t, op), f, g, u)
    ensures Cause(t, op, f, g, u)
  {
    hide Legal, Cause, After, Respond, Target, Holds;
    RefusedKeeps(t, op);
    if Target(t, op) != Some(g) {
      FactElsewhere(t, op, f, g, u);
    } else if f.Exists? || f.Gone? || f.HasCode? {
      GroupCause(t, op, f, g, u);
    } else {
      RosterCause(t, op, f, g, u);
    }
  }

  // ---------------------------------------------------------------- the invariant

  /** Members belong to existing groups, every group has an admin, invite codes are unique. */
  ghost predicate Inv(t: Tables) {
    && (forall k :: k in t.members ==> k.0 in t.groups)
    && (forall g :: g in t.groups ==> AdminsOf(t.members, g) != {})
    && UniqueCodes(t.groups)
  }

  lemma BigSet(s: set<string>, x: string)
    requires |s| > 1
    ensures s - {x} != {}
  {
    assert |s - {x}| >= |s| - 1;
  }

  lemma CodesStayUnique(t: Tables, op: Op)
    requires UniqueCodes(t.groups)
    ensures UniqueCodes(After(t, op).groups)
  {
    hide Dedupe, TrimSpace, MembersOf, AdminsOf, InsertMissing, SetRole, NeedsSuccessor;
  }

  /** The group a request is about still exists with an admin, or it has vanished with its last member. */
  lemma TargetStep(t: Tables, op: Op)
    requires Inv(t) && Legal(t, op) && Respond(t, op).Done?
    ensures var g := Target(t, op).value;
            var t' := After(t, op);
            if op.Leave? && MembersOf(t.members, g) == {op.caller} then g !in t'.groups && MembersOf(t'.members, g) == {}
            else g in t'.groups && AdminsOf(t'.members, g) != {}
  {
    hide Dedupe, TrimSpace, CodeTaken, InsertMissing, SetRole, GroupWithCode, UniqueCodes, MembersOf, AdminsOf, Touch;
    var g := Target(t, op).value;
    var A := AdminsOf(t.members, g);
    RosterEffect(t, op);
    TargetExists(t, op);
    if op.Leave? {
      LeaveStep(t, op);
    } else {
      hide After;
      match op {
        case Remove(_, _, x, _) => if x in A { BigSet(A, x); }
        case Demote(_, _, x, _) => BigSet(A, x);
        case _ =>
      }
    }
  }

  lemma TargetExists(t: Tables, op: Op)
    requires Inv(t) && Respond(t, op).Done?
    ensures op.Create? || Target(t, op).value in t.groups
    ensures !op.Leave? ==> Target(t, op).value in After(t, op).groups
  {
    hide Dedupe, TrimSpace, CodeTaken, InsertMissing, SetRole, UniqueCodes, MembersOf, AdminsOf;
  }

  lemma LeaveStep(t: Tables, op: Op)
    requires Inv(t) && Legal(t, op) && op.Leave? && Respond(t, op).Done?
    ensures var g := op.gid;
            var t' := After(t, op);
            if MembersOf(t.members, g) == {op.caller} then g !in t'.groups && MembersOf(t'.members, g) == {}
            else g in t'.groups && AdminsOf(t'.members, g) != {}
  {
    hide Dedupe, TrimSpace, InsertMissing, SetRole, UniqueCodes, MembersOf, AdminsOf;
    var g, u := op.gid, op.caller;
    var A, M := AdminsOf(t.members, g), MembersOf(t.members, g);
    var m' := After(t, op).members;
    RosterEffect(t, op);
    assert u in M;
    assert M - {u} == {} <==> M == {u};
    assert g in t.groups;
    if M != {u} && u in A && |A| > 1 { BigSet(A, u); }
  }

  lemma InvStep(t: Tables, op: Op)
    requires Inv(t) && Legal(t, op)
    ensures Inv(After(t, op))
  {
    hide Dedupe, TrimSpace, CodeTaken, InsertMissing, SetRole, GroupWithCode, UniqueCodes, MembersOf, AdminsOf, NeedsSuccessor;
    var t' := After(t, op);
    CodesStayUnique(t, op);
    if Respond(t, op).Done? {
      RespondTargets(t, op);
      TargetStep(t, op);
      hide Respond, After;
      var g := Target(t, op).value;
      forall k | k in t'.members ensures k.0 in t'.groups {
        if k.0 == g {
          assert k.1 in MembersOf(t'.members, g);
        } else {
          OtherGroupsKept(t, op, k.0);
          assert k in RowsOf(t'.members, k.0);
        }
      }
      forall h | h in t'.groups ensures AdminsOf(t'.members, h) != {} {
        if h != g {
          OtherGroupsKept(t, op, h);
          SameRoster(t.members, t'.members, h);
        }
      }
    }
  }

  lemma SameRoster(m: Members, n: Members, h: string)
    requires RowsOf(n, h) == RowsOf(m, h)
    ensures AdminsOf(n, h) == AdminsOf(m, h) && MembersOf(n, h) == MembersOf(m, h)
  {
    RowsRoster(m, h);
    RowsRoster(n, h);
  }

  /** A group's own rows decide its roster. */
  lemma RowsRoster(m: Members, h: string)
    ensures AdminsOf(RowsOf(m, h), h) == AdminsOf(m, h) && MembersOf(RowsOf(m, h), h) == MembersOf(m, h)
  {
  }

  // ---------------------------------------------------------------- whole runs

  const EMPTY := Tables(map[], map[])

  ghost function Run(t: Tables, ops: seq<Op>): Tables {
    if ops == [] then t else After(Run(t, ops[..|ops| - 1]), ops[|ops| - 1])
  }

  ghost predicate LegalRun(t: Tables, ops: seq<Op>) {
    ops == [] || (LegalRun(t, ops[..|ops| - 1]) && Legal(Run(t, ops[..|ops| - 1]), ops[|ops| - 1]))
  }

  /** Any requests in any order: no orphan member rows, no group without an admin, no shared codes. */
  lemma {:induction false} EveryGroupHasAdmin(ops: seq<Op>)
    requires LegalRun(EMPTY, ops)
    ensures Inv(Run(EMPTY, ops))
  {
    hide After, Legal, Respond, AdminsOf;
    if ops != [] {
      EveryGroupHasAdmin(ops[..|ops| - 1]);
      InvStep(Run(EMPTY, ops[..|ops| - 1]), ops[|ops| - 1]);
    }
  }

  /**
   Over whole runs: a person who has become, or ceased to be, a member or an admin, a group that
   has appeared or vanished, a code that is in force, each has an entitled request in the run.
   */
  lemma {:induction false} RunCause(t: Tables, ops: seq<Op>, f: Fact, g: string, u: string) returns (i: nat)
    requires LegalRun(t, ops) && !Holds(t, f, g, u) && Holds(Run(t, ops), f, g, u)
    ensures i < |ops| && Cause(Run(t, ops[..i]), ops[i], f, g, u)
  {
    hide Legal, Cause, After, Holds;
    var n := |ops| - 1;
    if Holds(Run(t, ops[..n]), f, g, u) {
      i := RunCause(t, ops[..n], f, g, u);
      assert ops[..n][..i] == ops[..i];
    } else {
      i := n;
      StepCause(Run(t, ops[..n]), ops[n], f, g, u);
    }
  }

  /** A group vanishes exactly when its last member leaves. */
  lemma VanishesWithLastMember(t: Tables, op: Op, g: string)
    requires Inv(t) && Legal(t, op) && g in t.groups
    ensures g !in After(t, op).groups <==>
            op.Leave? && op.gid == g && Respond(t, op).Done? && MembersOf(t.members, g) == {op.caller}
  {
    hide Dedupe, TrimSpace, CodeTaken, InsertMissing, SetRole, GroupWithCode, UniqueCodes, MembersOf, AdminsOf, Respond, NeedsSuccessor;
    if Respond(t, op).Done? {
      RespondTargets(t, op);
      TargetStep(t, op);
      if Target(t, op) != Some(g) { OtherGroupsKept(t, op, g); }
    }
  }

  /**
   When the only admin leaves others behind, one eldest remaining member becomes the only
   admin; no other role and no other column changes.
   */
  lemma Succession(t: Tables, op: Op)
    requires Inv(t) && Legal(t, op) && op.Leave? && Respond(t, op).Done?
    requires AdminsOf(t.members, op.gid) == {op.caller} && MembersOf(t.members, op.gid) != {op.caller}
    ensures var g, m, m' := op.gid, t.members, After(t, op).members;
            && AdminsOf(m', g) == {op.successor}
            && MembersOf(m', g) == MembersOf(m, g) - {op.caller}
            && (g, op.successor) in m && op.successor != op.caller
            && (forall k :: k in m && k.0 == g && k.1 != op.caller ==> m[(g, op.successor)].createdAt <= m[k].createdAt)
            && (forall u :: u in MembersOf(m', g) ==>
                  m'[(g, u)] == if u == op.successor then m[(g, u)].(role := Admin) else m[(g, u)])
  {
    hide Dedupe, TrimSpace, InsertMissing, UniqueCodes, MembersOf, AdminsOf, Touch;
    var g, m := op.gid, t.members;
    var m' := After(t, op).members;
    assert NeedsSuccessor(m, g, op.caller);
    RosterEffect(t, op);
    assert m' == SetRole(m, g, op.successor, Admin) - {(g, op.caller)};
    forall u | u in MembersOf(m', g)
      ensures IsMember(m, g, u) && m'[(g, u)] == if u == op.successor then m[(g, u)].(role := Admin) else m[(g, u)]
    {
    }
  }

  /** A replaced invite code resolves to nothing and the new one to the group. */
  lemma ResetRetiresCode(t: Tables, op: Op)
    requires UniqueCodes(t.groups) && op.Reset? && Respond(t, op).Done? && op.gid in t.groups
    ensures GroupWithCode(After(t, op).groups, op.code) == Some(op.gid)
    ensures t.groups[op.gid].code != op.code ==> GroupWithCode(After(t, op).groups, t.groups[op.gid].code) == None
  {
    hide MembersOf, AdminsOf;
    CodesStayUnique(t, op);
    var groups := After(t, op).groups;
    assert groups == t.groups[op.gid := t.groups[op.gid].(code := op.code, updatedAt := op.now)];
    assert groups[op.gid].code == op.code;
  }

  // ---------------------------------------------------------------- independence of groups

  /** The tables cut down to one group. */
  function View(t: Tables, g: string): Tables {
    Tables(map h | h in t.groups && h == g :: t.groups[h], RowsOf(t.members, g))
  }

  function Generated(op: Op): Option<string> {
    if op.Create? || op.Reset? then Some(op.code) else None
  }

  /** The code this request generates is not in use. */
  predicate Unused(groups: map<string, Group>, op: Op) {
    Generated(op).Some? ==> forall g :: g in groups ==> groups[g].code != Generated(op).value
  }

  lemma QueriesOnView(m: Members, g: string, u: string, s: string)
    ensures IsMember(RowsOf(m, g), g, u) == IsMember(m, g, u)
    ensures IsAdmin(RowsOf(m, g), g, u) == IsAdmin(m, g, u)
    ensures MembersOf(RowsOf(m, g), g) == MembersOf(m, g) && AdminsOf(RowsOf(m, g), g) == AdminsOf(m, g)
    ensures NeedsSuccessor(RowsOf(m, g), g, u) == NeedsSuccessor(m, g, u)
  {
    RowsRoster(m, g);
  }

  lemma EditsOnView(m: Members, g: string, u: string, phones: seq<string>, inviter: string, now: int, role: Role)
    ensures RowsOf(InsertMissing(m, g, phones, inviter, now), g) == InsertMissing(RowsOf(m, g), g, phones, inviter, now)
    ensures RowsOf(SetRole(m, g, u, role), g) == SetRole(RowsOf(m, g), g, u, role)
    ensures RowsOf(m - {(g, u)}, g) == RowsOf(m, g) - {(g, u)}
  {
  }

  lemma CodeOnView(t: Tables, code: string, g: string)
    requires UniqueCodes(t.groups) && GroupWithCode(t.groups, code) == Some(g)
    ensures GroupWithCode(View(t, g).groups, code) == Some(g)
  {
    assert g in View(t, g).groups;
  }

  /** The checks look at nothing but the request's own group, given an unused code. */
  lemma RespondOnView(t: Tables, op: Op, g: string)
    requires UniqueCodes(t.groups) && Target(t, op) == Some(g) && Unused(t.groups, op)
    ensures Respond(View(t, g), op) == Respond(t, op)
    ensures Target(View(t, g), op) == Some(g)
  {
    hide TrimSpace, MembersOf, AdminsOf, RowsOf, IsMember, IsAdmin;
    QueriesOnView(t.members, g, op.caller, "");
    if op.Remove? || op.Demote? { QueriesOnView(t.members, g, op.target, ""); }
    if op.Join? { CodeOnView(t, TrimSpace(op.code), g); }
    assert Generated(op).Some? ==> !CodeTaken(t.groups, op.code, g) && !CodeTaken(View(t, g).groups, op.code, g);
    hide CodeTaken;
  }

  /** So does its effect: a step commutes with cutting the tables down to its group. */
  lemma AfterOnView(t: Tables, op: Op, g: string)
    requires UniqueCodes(t.groups) && Target(t, op) == Some(g) && Unused(t.groups, op)
    ensures View(After(t, op), g) == After(View(t, g), op)
  {
    RespondOnView(t, op, g);
    if Respond(t, op).Done? {
      MembersOnView(t, op, g);
      GroupsOnView(t, op, g);
      hide After;
      var l, r := View(After(t, op), g), After(View(t, g), op);
      assert l.groups == r.groups && l.members == r.members;
    } else {
      assert After(t, op) == t;
    }
  }

  lemma MembersOnView(t: Tables, op: Op, g: string)
    requires Target(t, op) == Some(g) && Respond(t, op).Done?
    requires Respond(View(t, g), op).Done? && Target(View(t, g), op) == Some(g)
    ensures RowsOf(After(t, op).members, g) == After(View(t, g), op).members
  {
    hide Dedupe, TrimSpace, CodeTaken, MembersOf, AdminsOf, IsMember, IsAdmin, InsertMissing, SetRole, RowsOf, Respond,
         NeedsSuccessor, GroupWithCode;
    var m := t.members;
    match op {
      case Create(u, _, phones, _, _, now) => CreateOnView(m, g, u, Dedupe(phones, u), now);
      case Add(u, _, phones, now) => EditsOnView(m, g, u, Dedupe(phones, ""), u, now, Admin);
      case Remove(_, _, x, now) => EditsOnView(m, g, x, [], "", now, Admin);
      case Promote(_, _, x, now) => EditsOnView(m, g, x, [], "", now, Admin);
      case Demote(_, _, x, now) => EditsOnView(m, g, x, [], "", now, Member);
      case Leave(u, _, s, now) =>
        QueriesOnView(m, g, u, s);
        EditsOnView(m, g, s, [], "", now, Admin);
        EditsOnView(m, g, u, [], "", now, Admin);
        EditsOnView(SetRole(m, g, s, Admin), g, u, [], "", now, Admin);
      case Reset(_, _, _, _) =>
      case Join(u, _, now) => EditsOnView(m, g, u, [u], u, now, Admin);
    }
  }

  lemma CreateOnView(m: Members, g: string, u: string, phones: seq<string>, now: int)
    ensures var row := if (g, u) in m then m[(g, u)].(role := Admin) else Membership(Admin, u, now);
            var v := RowsOf(m, g);
            && ((g, u) in v <==> (g, u) in m) && ((g, u) in m ==> v[(g, u)] == m[(g, u)])
            && RowsOf(InsertMissing(m[(g, u) := row], g, phones, u, now), g)
               == InsertMissing(v[(g, u) := row], g, phones, u, now)
  {
    hide InsertMissing;
    var row := if (g, u) in m then m[(g, u)].(role := Admin) else Membership(Admin, u, now);
    EditsOnView(m[(g, u) := row], g, u, phones, u, now, Admin);
    assert RowsOf(m[(g, u) := row], g) == RowsOf(m, g)[(g, u) := row];
  }

  lemma GroupsOnView(t: Tables, op: Op, g: string)
    requires Target(t, op) == Some(g) && Respond(t, op).Done?
    requires Respond(View(t, g), op).Done? && Target(View(t, g), op) == Some(g)
    ensures View(After(t, op), g).groups == After(View(t, g), op).groups
  {
    hide Dedupe, TrimSpace, CodeTaken, MembersOf, AdminsOf, IsMember, IsAdmin, InsertMissing, SetRole, RowsOf, Respond,
         NeedsSuccessor, GroupWithCode;
    if op.Leave? {
      MembersOnView(t, op, g);
      RowsRoster(After(t, op).members, g);
    }
  }

  /** The requests of a run that were about group g when they came. */
  ghost function Projected(t: Tables, ops: seq<Op>, g: string): seq<Op> {
    if ops == [] then []
    else
      var n := |ops| - 1;
      Projected(t, ops[..n], g) + if Target(Run(t, ops[..n]), ops[n]) == Some(g) then [ops[n]] else []
  }

  /** randomHex: no code generated in the run was in use before or is generated twice. */
  ghost predicate FreshCodes(t: Tables, ops: seq<Op>) {
    forall i :: 0 <= i < |ops| && Generated(ops[i]).Some? ==> !Known(t, ops[..i], Generated(ops[i]).value)
  }

  ghost predicate Known(t: Tables, ops: seq<Op>, code: string) {
    || (exists g :: g in t.groups && t.groups[g].code == code)
    || (exists i :: 0 <= i < |ops| && Generated(ops[i]) == Some(code))
  }

  ghost predicate AllKnown(t: Tables, ops: seq<Op>, groups: map<string, Group>) {
    forall h :: h in groups ==> Known(t, ops, groups[h].code)
  }

  lemma KnownGrows(t: Tables, ops: seq<Op>, code: string)
    requires ops != [] && (Known(t, ops[..|ops| - 1], code) || Generated(ops[|ops| - 1]) == Some(code))
    ensures Known(t, ops, code)
  {
    var init := ops[..|ops| - 1];
    if i :| 0 <= i < |init| && Generated(init[i]) == Some(code) {
      assert Generated(ops[i]) == Some(code);
    }
  }

  lemma CodesAfter(t: Tables, op: Op, h: string)
    requires h in After(t, op).groups
    ensures (h in t.groups && After(t, op).groups[h].code == t.groups[h].code)
            || Generated(op) == Some(After(t, op).groups[h].code)
  {
    hide Dedupe, TrimSpace, CodeTaken, MembersOf, AdminsOf, IsMember, IsAdmin, InsertMissing, SetRole, Respond,
         NeedsSuccessor, GroupWithCode;
  }

  lemma StepKnown(t: Tables, ops: seq<Op>, s: Tables)
    requires ops != [] && AllKnown(t, ops[..|ops| - 1], s.groups)
    ensures AllKnown(t, ops, After(s, ops[|ops| - 1]).groups)
    ensures AllKnown(t, ops, s.groups)
  {
    hide After, Known, Generated;
    var op := ops[|ops| - 1];
    forall h | h in After(s, op).groups ensures Known(t, ops, After(s, op).groups[h].code) {
      CodesAfter(s, op, h);
      KnownGrows(t, ops, After(s, op).groups[h].code);
    }
    forall h | h in s.groups ensures Known(t, ops, s.groups[h].code) { KnownGrows(t, ops, s.groups[h].code); }
  }

  /**
   Groups are independent: replaying only the requests that concerned one group gives that
   group the very rows it has after the full run.
   */
  lemma {:induction false} GroupsIndependent(t: Tables, ops: seq<Op>, g: string)
    requires UniqueCodes(t.groups) && FreshCodes(t, ops)
    ensures View(Run(t, ops), g) == View(Run(t, Projected(t, ops, g)), g)
    ensures UniqueCodes(Run(t, ops).groups) && UniqueCodes(Run(t, Projected(t, ops, g)).groups)
    ensures AllKnown(t, ops, Run(t, ops).groups) && AllKnown(t, ops, Run(t, Projected(t, ops, g)).groups)
  {
    hide After, Respond, View, UniqueCodes, AllKnown;
    if ops == [] {
      assert AllKnown(t, ops, t.groups) by { KnownFromStart(t); }
    } else {
      var n := |ops| - 1;
      var op := ops[n];
      var s, p := Run(t, ops[..n]), Projected(t, ops[..n], g);
      var r := Run(t, p);
      FreshPrefix(t, ops);
      GroupsIndependent(t, ops[..n], g);
      StepKnown(t, ops, s);
      StepKnown(t, ops, r);
      CodesStayUnique(s, op);
      CodesStayUnique(r, op);
      if Target(s, op) == Some(g) {
        assert (p + [op])[..|p|] == p;
        NotInUse(t, ops[..n], s, op);
        NotInUse(t, ops[..n], r, op);
        SameTarget(s, r, op, g);
        AfterOnView(s, op, g);
        AfterOnView(r, op, g);
      } else {
        assert p + [] == p;
        OtherGroupsKept(s, op, g);
        SameView(s, After(s, op), g);
      }
    }
  }

  lemma LegalOnView(t: Tables, op: Op, g: string)
    requires op.Leave? ==> op.gid == g
    ensures Legal(View(t, g), op) <==> Legal(t, op)
  {
    hide MembersOf, AdminsOf, RowsOf, IsAdmin, TrimSpace, NeedsSuccessor, IsMember, Eldest;
    if op.Leave? {
      QueriesOnView(t.members, g, op.caller, op.successor);
      EldestOnView(t.members, g, op.caller, op.successor);
    }
  }

  lemma EldestOnView(m: Members, g: string, u: string, s: string)
    ensures Eldest(RowsOf(m, g), g, u, s) <==> Eldest(m, g, u, s)
  {
    assert forall k: (string, string) :: k.0 == g ==> (k in RowsOf(m, g) <==> k in m);
  }

  /** The replay is itself a run the service could have made: its succession choices are still the query's. */
  lemma {:induction false} ReplayLegal(t: Tables, ops: seq<Op>, g: string)
    requires UniqueCodes(t.groups) && FreshCodes(t, ops) && LegalRun(t, ops)
    ensures LegalRun(t, Projected(t, ops, g))
  {
    hide After, Respond, View, UniqueCodes, AllKnown, Legal, FreshCodes;
    if ops != [] {
      var n := |ops| - 1;
      var s, p := Run(t, ops[..n]), Projected(t, ops[..n], g);
      FreshPrefix(t, ops);
      ReplayLegal(t, ops[..n], g);
      GroupsIndependent(t, ops[..n], g);
      if Target(s, ops[n]) == Some(g) {
        LegalOnView(s, ops[n], g);
        LegalOnView(Run(t, p), ops[n], g);
        assert (p + [ops[n]])[..|p|] == p;
      } else {
        assert p + [] == p;
      }
    }
  }

  lemma KnownFromStart(t: Tables)
    ensures AllKnown(t, [], t.groups)
  {
  }

  lemma FreshPrefix(t: Tables, ops: seq<Op>)
    requires ops != [] && FreshCodes(t, ops)
    ensures FreshCodes(t, ops[..|ops| - 1])
    ensures Generated(ops[|ops| - 1]).Some? ==> !Known(t, ops[..|ops| - 1], Generated(ops[|ops| - 1]).value)
  {
    hide Known, Generated;
    forall i | 0 <= i < |ops| - 1 && Generated(ops[i]).Some?
      ensures !Known(t, ops[..|ops| - 1][..i], Generated(ops[..|ops| - 1][i]).value)
    {
      assert ops[..|ops| - 1][..i] == ops[..i];
    }
  }

  lemma NotInUse(t: Tables, ops: seq<Op>, s: Tables, op: Op)
    requires AllKnown(t, ops, s.groups) && (Generated(op).Some? ==> !Known(t, ops, Generated(op).value))
    ensures Unused(s.groups, op)
  {
  }

  lemma SameView(t: Tables, t': Tables, g: string)
    requires g in t'.groups <==> g in t.groups
    requires g in t.groups ==> t'.groups[g] == t.groups[g]
    requires RowsOf(t'.members, g) == RowsOf(t.members, g)
    ensures View(t', g) == View(t, g)
  {
    assert View(t', g).groups == View(t, g).groups;
  }

  /** A request about g in one run is about g in any run that agrees on g. */
  lemma SameTarget(s: Tables, r: Tables, op: Op, g: string)
    requires View(s, g) == View(r, g) && UniqueCodes(r.groups) && Target(s, op) == Some(g)
    ensures Target(r, op) == Some(g)
  {
    hide RowsOf, TrimSpace;
    if op.Join? {
      assert g in View(s, g).groups;
      assert g in View(r, g).groups;
      assert r.groups[g].code == s.groups[g].code;
    }
  }

  // ---------------------------------------------------------------- retired codes

  lemma KnownAppend(t: Tables, ops: seq<Op>, more: seq<Op>, code: string)
    requires Known(t, ops, code)
    ensures Known(t, ops + more, code)
  {
    if i :| 0 <= i < |ops| && Generated(ops[i]) == Some(code) {
      assert Generated((ops + more)[i]) == Some(code);
    }
  }

  predicate Unresolved(groups: map<string, Group>, code: string) {
    forall g :: g in groups ==> groups[g].code != code
  }

  /** A code that was in use or generated once, and that no group holds now, is never found again. */
  lemma {:induction false} RetiredForGood(t: Tables, ops: seq<Op>, more: seq<Op>, code: string)
    requires FreshCodes(t, ops + more) && Known(t, ops, code) && Unresolved(Run(t, ops).groups, code)
    ensures Unresolved(Run(t, ops + more).groups, code)
    ensures GroupWithCode(Run(t, ops + more).groups, code) == None
  {
    hide After, Known, Generated, FreshCodes;
    if more == [] {
      assert ops + more == ops;
    } else {
      var all, init := ops + more, more[..|more| - 1];
      assert all[..|all| - 1] == ops + init;
      FreshPrefix(t, all);
      RetiredForGood(t, ops, init, code);
      KnownAppend(t, ops, init, code);
      var s, op := Run(t, ops + init), all[|all| - 1];
      forall h | h in After(s, op).groups ensures After(s, op).groups[h].code != code { CodesAfter(s, op, h); }
    }
  }

  lemma {:induction false} FreshStart(t: Tables, ops: seq<Op>, more: seq<Op>)
    requires FreshCodes(t, ops + more)
    ensures FreshCodes(t, ops)
  {
    hide FreshCodes;
    if more == [] {
      assert ops + more == ops;
    } else {
      FreshPrefix(t, ops + more);
      assert (ops + more)[..|ops + more| - 1] == ops + more[..|more| - 1];
      FreshStart(t, ops, more[..|more| - 1]);
    }
  }

  /** Whatever follows a reset, nobody joins by the replaced code again. */
  lemma ResetRetiresForGood(t: Tables, before: seq<Op>, op: Op, more: seq<Op>)
    requires UniqueCodes(t.groups) && FreshCodes(t, before + [op] + more)
    requires op.Reset? && Respond(Run(t, before), op).Done? && op.gid in Run(t, before).groups
    ensures GroupWithCode(Run(t, before + [op] + more).groups, Run(t, before).groups[op.gid].code) == None
  {
    var ops, code := before + [op], Run(t, before).groups[op.gid].code;
    assert ops[..|ops| - 1] == before;
    FreshStart(t, ops, more);
    FreshPrefix(t, ops);
    GroupsIndependent(t, before, op.gid);
    assert Known(t, before, code);
    ResetRetiresCode(Run(t, before), op);
    KnownGrows(t, ops, code);
    hide Known, FreshCodes, Respond, After, UniqueCodes;
    RetiredForGood(t, ops, more, code);
  }
}
