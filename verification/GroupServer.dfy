/** The gateway's group handlers, statement by statement, against the steps of module Groups. */
module GroupServer {
  import opened Text
  import opened Recipients
  import opened Groups

  /** One more INSERT ... ON CONFLICT DO NOTHING. */
  function InsertOne(m: Members, g: string, phone: string, inviter: string, now: int): Members {
    if (g, phone) in m then m else m[(g, phone) := Membership(Member, inviter, now)]
  }

  lemma InsertNone(m: Members, g: string, inviter: string, now: int)
    ensures InsertMissing(m, g, [], inviter, now) == m
  {
  }

  lemma InsertSnoc(m: Members, g: string, phones: seq<string>, k: nat, inviter: string, now: int)
    requires k < |phones|
    ensures InsertMissing(m, g, phones[..k + 1], inviter, now)
         == InsertOne(InsertMissing(m, g, phones[..k], inviter, now), g, phones[k], inviter, now)
  {
    assert phones[..k + 1] == phones[..k] + [phones[k]];
    assert Keys(g, phones[..k + 1]) == Keys(g, phones[..k]) + {(g, phones[k])};
  }

  lemma CodeFinds(groups: map<string, Group>, code: string, g: string)
    requires UniqueCodes(groups) && g in groups && groups[g].code == code
    ensures GroupWithCode(groups, code) == Some(g)
  {
  }

  /** Among other members there is one that joined no later than the rest. */
  lemma EldestExists(m: Members, g: string, u: string) returns (s: string)
    requires MembersOf(m, g) - {u} != {}
    ensures Eldest(m, g, u, s)
  {
    s := EldestOf(m, g, MembersOf(m, g) - {u});
    forall k | k in m && k.0 == g && k.1 != u ensures m[(g, s)].createdAt <= m[k].createdAt {
      assert k.1 in MembersOf(m, g) - {u} && k == (g, k.1);
    }
  }

  lemma {:induction false} EldestOf(m: Members, g: string, users: set<string>) returns (s: string)
    requires users != {} && forall u :: u in users ==> (g, u) in m
    ensures s in users && forall u :: u in users ==> m[(g, s)].createdAt <= m[(g, u)].createdAt
  {
    var x :| x in users;
    if users == {x} {
      s := x;
    } else {
      assert users - {x} != {};
      s := EldestOf(m, g, users - {x});
      if m[(g, x)].createdAt < m[(g, s)].createdAt { s := x; }
    }
  }

  lemma KeepsInv(t: Tables, op: Op)
    requires Legal(t, op)
    ensures Inv(t) ==> Inv(After(t, op))
  {
    hide Inv, After, Legal;
    if Inv(t) { InvStep(t, op); }
  }

  class Server {
    var groups: map<string, Group>
    var members: Members

    constructor ()
      ensures Value() == EMPTY && Inv(Value())
    {
      groups, members := map[], map[];
    }

    function Value(): Tables
      reads this
    {
      Tables(groups, members)
    }

    method InsertMembers(g: string, phones: seq<string>, inviter: string, now: int)
      modifies this`members
      ensures members == InsertMissing(old(members), g, phones, inviter, now)
    {
      InsertNone(members, g, inviter, now);
      for k := 0 to |phones|
        invariant members == InsertMissing(old(members), g, phones[..k], inviter, now)
      {
        InsertSnoc(old(members), g, phones, k, inviter, now);
        if (g, phones[k]) !in members {
          members := members[(g, phones[k]) := Membership(Member, inviter, now)];
        }
      }
      assert phones[..|phones|] == phones;
    }

    method TouchGroup(g: string, now: int)
      modifies this`groups
      ensures groups == Touch(old(groups), g, now)
    {
      if g in groups {
        groups := groups[g := groups[g].(updatedAt := now)];
      }
    }

    method CreateGroup(caller: string, rawName: string, phones: seq<string>, groupID: string, inviteCode: string, now: int)
      returns (answer: Answer)
      modifies this
      ensures var op := Create(caller, rawName, phones, groupID, inviteCode, now);
              answer == Respond(old(Value()), op) && Value() == After(old(Value()), op)
      ensures Inv(old(Value())) ==> Inv(Value())
    {
      if TrimSpace(caller) == "" { return Unauthorized; }
      var name := TrimSpace(rawName);
      if name == "" { return BadRequest; }
      var memberPhones := DedupeIDs(phones, caller);
      if groupID in groups || CodeTaken(groups, inviteCode, groupID) { return Failed; }
      groups := groups[groupID := Group(name, caller, inviteCode, now, now)];
      if (groupID, caller) in members {
        members := members[(groupID, caller) := members[(groupID, caller)].(role := Admin)];
      } else {
        members := members[(groupID, caller) := Membership(Admin, caller, now)];
      }
      InsertMembers(groupID, memberPhones, caller, now);
      KeepsInv(old(Value()), Create(caller, rawName, phones, groupID, inviteCode, now));
      return Done;
    }

    method AddGroupMembers(caller: string, groupID: string, phones: seq<string>, now: int) returns (answer: Answer)
      modifies this
      ensures var op := Add(caller, groupID, phones, now);
              answer == Respond(old(Value()), op) && Value() == After(old(Value()), op)
      ensures Inv(old(Value())) ==> Inv(Value())
    {
      if TrimSpace(caller) == "" { return Unauthorized; }
      if !IsAdmin(members, groupID, caller) { return Forbidden; }
      var memberPhones := DedupeIDs(phones, "");
      InsertMembers(groupID, memberPhones, caller, now);
      TouchGroup(groupID, now);
      KeepsInv(old(Value()), Add(caller, groupID, phones, now));
      return Done;
    }

    method RemoveGroupMember(caller: string, groupID: string, target: string, now: int) returns (answer: Answer)
      modifies this
      ensures var op := Remove(caller, groupID, target, now);
              answer == Respond(old(Value()), op) && Value() == After(old(Value()), op)
      ensures Inv(old(Value())) ==> Inv(Value())
    {
      if TrimSpace(caller) == "" { return Unauthorized; }
      if !IsAdmin(members, groupID, caller) { return Forbidden; }
      if target == "" { return BadRequest; }
      if IsAdmin(members, groupID, target) && |AdminsOf(members, groupID)| <= 1 { return BadRequest; }
      members := members - {(groupID, target)};
      TouchGroup(groupID, now);
      KeepsInv(old(Value()), Remove(caller, groupID, target, now));
      return Done;
    }

    method PromoteGroupAdmin(caller: string, groupID: string, target: string, now: int) returns (answer: Answer)
      modifies this
      ensures var op := Promote(caller, groupID, target, now);
              answer == Respond(old(Value()), op) && Value() == After(old(Value()), op)
      ensures Inv(old(Value())) ==> Inv(Value())
    {
      if TrimSpace(caller) == "" { return Unauthorized; }
      if !IsAdmin(members, groupID, caller) { return Forbidden; }
      if (groupID, target) in members {
        members := members[(groupID, target) := members[(groupID, target)].(role := Admin)];
      }
      TouchGroup(groupID, now);
      KeepsInv(old(Value()), Promote(caller, groupID, target, now));
      return Done;
    }

    method DemoteGroupAdmin(caller: string, groupID: string, target: string, now: int) returns (answer: Answer)
      modifies this
      ensures var op := Demote(caller, groupID, target, now);
              answer == Respond(old(Value()), op) && Value() == After(old(Value()), op)
      ensures Inv(old(Value())) ==> Inv(Value())
    {
      if TrimSpace(caller) == "" { return Unauthorized; }
      if !IsAdmin(members, groupID, caller) { return Forbidden; }
      if !IsAdmin(members, groupID, target) { return BadRequest; }
      if |AdminsOf(members, groupID)| <= 1 { return BadRequest; }
      members := members[(groupID, target) := members[(groupID, target)].(role := Member)];
      TouchGroup(groupID, now);
      KeepsInv(old(Value()), Demote(caller, groupID, target, now));
      return Done;
    }

    /** `successor` is the member the succession query picked, if it ran. */
    method LeaveGroup(caller: string, groupID: string, now: int) returns (answer: Answer, successor: string)
      modifies this
      ensures var op := Leave(caller, groupID, successor, now);
              && answer == Respond(old(Value()), op) && Value() == After(old(Value()), op)
              && Legal(old(Value()), op)
      ensures Inv(old(Value())) ==> Inv(Value())
    {
      hide TrimSpace, Touch, MembersOf, AdminsOf;
      successor := "";
      if TrimSpace(caller) == "" { return Unauthorized, successor; }
      if groupID == "" { return BadRequest, successor; }
      if !IsMember(members, groupID, caller) { return BadRequest, successor; }
      if IsAdmin(members, groupID, caller) && |AdminsOf(members, groupID)| <= 1 {
        var others := MembersOf(members, groupID) - {caller};
        if others != {} {
          ghost var eldest := EldestExists(members, groupID, caller);
          successor :| successor in others && Eldest(members, groupID, caller, successor);
          members := members[(groupID, successor) := members[(groupID, successor)].(role := Admin)];
        }
      }
      members := members - {(groupID, caller)};
      if |MembersOf(members, groupID)| == 0 {
        groups := groups - {groupID};
      } else {
        TouchGroup(groupID, now);
      }
      KeepsInv(old(Value()), Leave(caller, groupID, successor, now));
      return Done, successor;
    }

    method ResetGroupInvite(caller: string, groupID: string, code: string, now: int) returns (answer: Answer)
      modifies this
      ensures var op := Reset(caller, groupID, code, now);
              answer == Respond(old(Value()), op) && Value() == After(old(Value()), op)
      ensures Inv(old(Value())) ==> Inv(Value())
    {
      if TrimSpace(caller) == "" { return Unauthorized; }
      if !IsAdmin(members, groupID, caller) { return Forbidden; }
      if groupID in groups {
        if CodeTaken(groups, code, groupID) { return Failed; }
        groups := groups[groupID := groups[groupID].(code := code, updatedAt := now)];
      }
      KeepsInv(old(Value()), Reset(caller, groupID, code, now));
      return Done;
    }

    method JoinByInvite(caller: string, rawCode: string, now: int) returns (answer: Answer)
      requires UniqueCodes(groups)
      modifies this
      ensures var op := Join(caller, rawCode, now);
              answer == Respond(old(Value()), op) && Value() == After(old(Value()), op)
      ensures Inv(old(Value())) ==> Inv(Value())
    {
      hide TrimSpace, InsertMissing, Touch, UniqueCodes, GroupWithCode;
      if TrimSpace(caller) == "" { return Unauthorized; }
      var code := TrimSpace(rawCode);
      if code == "" { return BadRequest; }
      if !exists g :: g in groups && groups[g].code == code { return BadRequest; }
      var groupID :| groupID in groups && groups[groupID].code == code;
      CodeFinds(groups, code, groupID);
      InsertMembers(groupID, [caller], caller, now);
      TouchGroup(groupID, now);
      KeepsInv(old(Value()), Join(caller, rawCode, now));
      return Done;
    }
  }
}
