/** Conversation identifiers. */
module Conversations {
  import opened Text

  function PairId(low: string, high: string): string {
    "dm:" + low + ":" + high
  }

  function BuildConversationID(sender: string, recipients: seq<string>, groupID: string): string {
    if groupID != "" then "group:" + groupID
    else if |recipients| > 0 then
      var peer := recipients[0];
      if Less(peer, sender) then PairId(peer, sender) else PairId(sender, peer)
    else "dm:" + sender
  }

  /** Ids survive the trimming that a history request applies to them. */
  lemma BuiltIdTrimmed(sender: string, recipients: seq<string>, groupID: string)
    requires Trimmed(groupID) && Trimmed(sender) && sender != ""
    requires forall r :: r in recipients ==> r != "" && Trimmed(r)
    ensures var id := BuildConversationID(sender, recipients, groupID);
            id != "" && TrimSpace(id) == id
  {
    var id := BuildConversationID(sender, recipients, groupID);
    var last := if groupID != "" then groupID
                else if |recipients| == 0 || Less(recipients[0], sender) then sender
                else recipients[0];
    assert last != "" && Trimmed(last) && id[|id| - 1] == last[|last| - 1];
    assert id[0] in {'g', 'd'};
  }

  predicate ColonFree(s: string) { ':' !in s }

  /** Two pair ids coincide exactly when one splits the other's text at a different colon. */
  predicate SameSplit(a: string, b: string, c: string, d: string) {
    || (a == c && b == d)
    || (|a| < |c| && c[..|a|] == a && c[|a|] == ':' && b == c[|a| + 1..] + ":" + d)
    || (|c| < |a| && a[..|c|] == c && a[|c|] == ':' && d == a[|c| + 1..] + ":" + b)
  }

  lemma PairIdCollision(a: string, b: string, c: string, d: string)
    ensures PairId(a, b) == PairId(c, d) <==> SameSplit(a, b, c, d)
  {
    var x, y := a + ":" + b, c + ":" + d;
    assert PairId(a, b) == "dm:" + x && PairId(c, d) == "dm:" + y;
    assert PairId(a, b)[3..] == x && PairId(c, d)[3..] == y;
    if x == y {
      if |a| == |c| {
        assert x[..|a|] == a && y[..|a|] == c;
        assert x[|a| + 1..] == b && y[|a| + 1..] == d;
      } else if |a| < |c| {
        SplitLater(a, b, c, d);
      } else {
        SplitLater(c, d, a, b);
      }
    }
    if SameSplit(a, b, c, d) {
      if |a| < |c| {
        assert c == a + ":" + c[|a| + 1..];
      } else if |c| < |a| {
        assert a == c + ":" + a[|c| + 1..];
      }
      assert x == y;
    }
  }

  lemma SplitLater(a: string, b: string, c: string, d: string)
    requires |a| < |c| && a + ":" + b == c + ":" + d
    ensures c[..|a|] == a && c[|a|] == ':' && b == c[|a| + 1..] + ":" + d
  {
    var x := a + ":" + b;
    assert x[..|a|] == a && x[|a|] == ':' && x[|a| + 1..] == b;
    assert x == c + (":" + d);
    assert x[..|a|] == c[..|a|] && x[|a|] == c[|a|];
    assert x[|a| + 1..] == c[|a| + 1..] + (":" + d);
  }

  /** A phone holding a colon can make two different pairs share one conversation. */
  lemma ColonsCollide()
    ensures BuildConversationID("a:b", ["c"], "") == BuildConversationID("a", ["b:c"], "")
    ensures {"a:b", "c"} != {"a", "b:c"}
  {
    assert Less("a", "b:c") && !Less("c", "a:b");
    PairIdCollision("a:b", "c", "a", "b:c");
    assert "a:b"[..1] == "a" && "a:b"[2..] == "b";
    assert "b:c" == "b" + ":" + "c";
    assert |"a:b"| == 3 && |{"a:b", "c"}| == 2;
    assert "c" !in {"a", "b:c"};
  }

  /** Direct ids do not depend on who sends, and name their unordered pair when phones have no colon. */
  lemma DirectIdNamesPair(a: string, b: string, c: string, d: string)
    ensures BuildConversationID(a, [b], "") == BuildConversationID(b, [a], "")
    ensures ColonFree(a) && ColonFree(b) && ColonFree(c) && ColonFree(d) ==>
            (BuildConversationID(a, [b], "") == BuildConversationID(c, [d], "") <==> {a, b} == {c, d})
  {
    LessTotal(a, b);
    LessTotal(c, d);
    var (l, h) := if Less(b, a) then (b, a) else (a, b);
    var (l', h') := if Less(d, c) then (d, c) else (c, d);
    PairIdCollision(l, h, l', h');
    assert {a, b} == {l, h} && {c, d} == {l', h'};
    if {l, h} == {l', h'} {
      assert l in {l', h'} && h in {l', h'} && l' in {l, h} && h' in {l, h};
    }
  }

  /** What an id reads like: the group, or the two phones in byte order, after their prefix. */
  lemma IdLayout(sender: string, recipients: seq<string>, groupID: string)
    ensures var id := BuildConversationID(sender, recipients, groupID);
            if groupID != "" then |id| == 6 + |groupID| && id[..6] == "group:" && id[6..] == groupID
            else if recipients == [] then id[..3] == "dm:" && id[3..] == sender
            else exists x, y :: {x, y} == {sender, recipients[0]} && !Less(y, x) && id == "dm:" + x + ":" + y
  {
    var id := BuildConversationID(sender, recipients, groupID);
    if groupID == "" && recipients != [] {
      LessTotal(sender, recipients[0]);
      var (x, y) := if Less(recipients[0], sender) then (recipients[0], sender) else (sender, recipients[0]);
      assert {x, y} == {sender, recipients[0]} && id == "dm:" + x + ":" + y;
    }
  }

  function Low(a: string, b: string): string { if Less(b, a) then b else a }

  function High(a: string, b: string): string { if Less(b, a) then a else b }

  /** The direct conversation of a and b carries the same id as that of c and d. */
  predicate SameDirect(a: string, b: string, c: string, d: string) {
    SameSplit(Low(a, b), High(a, b), Low(c, d), High(c, d))
  }

  /** When two sends share a conversation, whatever their senders, recipients and groups. */
  predicate SameConversation(s: string, rs: seq<string>, g: string, s': string, rs': seq<string>, g': string) {
    if g != "" || g' != "" then g == g'
    else if rs != [] && rs' != [] then SameDirect(s, rs[0], s', rs'[0])
    else if rs != [] then s' == Low(s, rs[0]) + ":" + High(s, rs[0])
    else if rs' != [] then s == Low(s', rs'[0]) + ":" + High(s', rs'[0])
    else s == s'
  }

  lemma BuiltIdCollision(s: string, rs: seq<string>, g: string, s': string, rs': seq<string>, g': string)
    ensures BuildConversationID(s, rs, g) == BuildConversationID(s', rs', g') <==> SameConversation(s, rs, g, s', rs', g')
  {
    hide SameSplit, Less;
    if g != "" || g' != "" {
      GroupIdTail(s, rs, g);
      GroupIdTail(s', rs', g');
    } else if rs != [] && rs' != [] {
      PairIdCollision(Low(s, rs[0]), High(s, rs[0]), Low(s', rs'[0]), High(s', rs'[0]));
    } else {
      DirectIdTail(s, rs);
      DirectIdTail(s', rs');
    }
  }

  lemma GroupIdTail(s: string, rs: seq<string>, g: string)
    ensures var x := BuildConversationID(s, rs, g);
            if g != "" then |x| > 6 && x[0] == 'g' && x[6..] == g else x != "" && x[0] == 'd'
  {
  }

  lemma DirectIdTail(s: string, rs: seq<string>)
    ensures var x := BuildConversationID(s, rs, "");
            && |x| >= 3 && x == "dm:" + x[3..]
            && x[3..] == if rs != [] then Low(s, rs[0]) + ":" + High(s, rs[0]) else s
  {
    hide Less;
  }

  /** No direct conversation is a group's, and groups have their own. */
  lemma GroupIdsDisjoint(g: string, g': string, sender: string, recipients: seq<string>)
    requires g != "" && g' != ""
    ensures forall s, rs :: BuildConversationID(s, rs, g) != BuildConversationID(sender, recipients, "")
    ensures forall s, rs :: BuildConversationID(s, rs, g) == BuildConversationID(sender, recipients, g') <==> g == g'
  {
    var direct := BuildConversationID(sender, recipients, "");
    assert direct[0] == 'd';
    assert ("group:" + g)[6..] == g && ("group:" + g')[6..] == g';
    assert ("group:" + g)[0] == 'g';
  }
}
