/** Cleaning a recipient list and cutting it into fan-out batches. */
module Recipients {
  import opened Text

  predicate NoDuplicates<T(==)>(s: seq<T>) {
    forall i, j :: 0 <= i < j < |s| ==> s[i] != s[j]
  }

  /** The recipients kept from `ids`: trimmed, non-blank, not `skip`, later repeats dropped. */
  function Dedupe(ids: seq<string>, skip: string): (out: seq<string>)
    ensures NoDuplicates(out) && |out| <= |ids|
    ensures forall id :: id in out ==> id != "" && id != skip && Trimmed(id)
  {
    if ids == [] then []
    else
      var out := Dedupe(ids[..|ids| - 1], skip);
      var id := TrimSpace(ids[|ids| - 1]);
      if id == "" || id == skip || id in out then out else out + [id]
  }

  /** Position i holds the first occurrence of a recipient worth keeping. */
  predicate FirstOccurrence(ids: seq<string>, skip: string, i: nat)
    requires i < |ids|
  {
    var id := TrimSpace(ids[i]);
    id != "" && id != skip && forall j :: 0 <= j < i ==> TrimSpace(ids[j]) != id
  }

  /** The positions of the kept recipients in input order. */
  function Positions(ids: seq<string>, skip: string): (at: seq<nat>)
    ensures forall k :: 0 <= k < |at| ==> at[k] < |ids|
  {
    if ids == [] then []
    else
      var n := |ids| - 1;
      var at := Positions(ids[..n], skip);
      if FirstOccurrence(ids, skip, n) then at + [n] else at
  }

  /** Some entry of `ids` is `id` once trimmed. */
  predicate Mentions(ids: seq<string>, id: string) {
    exists i :: 0 <= i < |ids| && TrimSpace(ids[i]) == id
  }

  lemma MentionsSnoc(ids: seq<string>, id: string)
    requires ids != []
    ensures Mentions(ids, id) <==> Mentions(ids[..|ids| - 1], id) || TrimSpace(ids[|ids| - 1]) == id
  {
    var init := ids[..|ids| - 1];
    if Mentions(init, id) {
      var i :| 0 <= i < |init| && TrimSpace(init[i]) == id;
      assert TrimSpace(ids[i]) == id;
    }
    if Mentions(ids, id) {
      var i :| 0 <= i < |ids| && TrimSpace(ids[i]) == id;
      if i < |init| { assert TrimSpace(init[i]) == id; }
    }
  }

  /** Who is kept: everyone mentioned but blanks and the skipped one. */
  lemma {:induction false} DedupeMembers(ids: seq<string>, skip: string, id: string)
    ensures id in Dedupe(ids, skip) <==> id != "" && id != skip && Mentions(ids, id)
  {
    if ids != [] {
      DedupeMembers(ids[..|ids| - 1], skip, id);
      MentionsSnoc(ids, id);
    }
  }

  /** Dedupe keeps exactly the first occurrences, in input order. */
  lemma {:induction false} DedupeExact(ids: seq<string>, skip: string)
    ensures var out, at := Dedupe(ids, skip), Positions(ids, skip);
            && |at| == |out|
            && (forall j, k :: 0 <= j < k < |at| ==> at[j] < at[k])
            && (forall k :: 0 <= k < |at| ==> out[k] == TrimSpace(ids[at[k]]))
  {
    hide TrimSpace, FirstOccurrence, Mentions, NoDuplicates;
    if ids != [] {
      var n := |ids| - 1;
      var init := ids[..n];
      DedupeExact(init, skip);
      DedupeMembers(init, skip, TrimSpace(ids[n]));
      LastIsFirst(ids, skip);
    }
  }

  lemma {:induction false} NobodyKept(ids: seq<string>, skip: string)
    requires Dedupe(ids, skip) == []
    ensures forall j :: 0 <= j < |ids| ==> TrimSpace(ids[j]) == "" || TrimSpace(ids[j]) == skip
  {
    hide TrimSpace, NoDuplicates;
    if ids != [] { NobodyKept(ids[..|ids| - 1], skip); }
  }

  lemma DedupeNil(skip: string)
    ensures Dedupe([], skip) == []
  {
  }

  lemma DedupeSnoc(ids: seq<string>, skip: string)
    requires ids != []
    ensures var init, id := Dedupe(ids[..|ids| - 1], skip), TrimSpace(ids[|ids| - 1]);
            Dedupe(ids, skip) == if id == "" || id == skip || id in init then init else init + [id]
  {
  }

  /** The first kept recipient is the first entry worth keeping. */
  lemma {:induction false} FirstKept(ids: seq<string>, skip: string) returns (k: nat)
    requires Dedupe(ids, skip) != []
    ensures k < |ids| && Dedupe(ids, skip)[0] == TrimSpace(ids[k])
    ensures TrimSpace(ids[k]) != "" && TrimSpace(ids[k]) != skip
    ensures forall j :: 0 <= j < k ==> TrimSpace(ids[j]) == "" || TrimSpace(ids[j]) == skip
  {
    hide *;
    assert ids != [] by { DedupeNil(skip); }
    DedupeSnoc(ids, skip);
    var n := |ids| - 1;
    if Dedupe(ids[..n], skip) != [] {
      k := FirstKept(ids[..n], skip);
    } else {
      k := n;
      NobodyKept(ids[..n], skip);
    }
  }

  lemma {:induction false} PositionsExact(ids: seq<string>, skip: string, i: nat)
    requires i < |ids|
    ensures i in Positions(ids, skip) <==> FirstOccurrence(ids, skip, i)
  {
    hide TrimSpace, FirstOccurrence;
    var n := |ids| - 1;
    if i < n {
      PositionsExact(ids[..n], skip, i);
      FirstOccurrencePrefix(ids, skip, i);
    } else {
      assert forall k :: 0 <= k < |Positions(ids[..n], skip)| ==> Positions(ids[..n], skip)[k] < |ids[..n]|;
    }
  }

  lemma FirstOccurrencePrefix(ids: seq<string>, skip: string, i: nat)
    requires i < |ids| - 1
    ensures FirstOccurrence(ids, skip, i) <==> FirstOccurrence(ids[..|ids| - 1], skip, i)
  {
    assert forall j :: 0 <= j <= i ==> ids[..|ids| - 1][j] == ids[j];
  }

  lemma LastIsFirst(ids: seq<string>, skip: string)
    requires ids != []
    ensures var id := TrimSpace(ids[|ids| - 1]);
            FirstOccurrence(ids, skip, |ids| - 1) <==>
            id != "" && id != skip && !Mentions(ids[..|ids| - 1], id)
  {
    var n := |ids| - 1;
    assert forall j :: 0 <= j < n ==> ids[..n][j] == ids[j];
  }

  /** The chat service's recipient filter. */
  method DedupeRecipients(ids: seq<string>, senderPhone: string) returns (out: seq<string>)
    ensures out == Dedupe(ids, senderPhone)
  {
    out := [];
    var seen: set<string> := {};
    for i := 0 to |ids|
      invariant out == Dedupe(ids[..i], senderPhone)
      invariant forall id :: id in seen <==> id in out
    {
      assert ids[..i + 1][..i] == ids[..i];
      var id := TrimSpace(ids[i]);
      if id == "" || id == senderPhone { continue; }
      if id in seen { continue; }
      seen := seen + {id};
      out := out + [id];
    }
    assert ids[..|ids|] == ids;
  }

  /** The gateway's filter: an empty `skip` means nobody is skipped, yet it agrees with the above. */
  method DedupeIDs(ids: seq<string>, skip: string) returns (out: seq<string>)
    ensures out == Dedupe(ids, skip)
  {
    out := [];
    var seen: set<string> := {};
    for i := 0 to |ids|
      invariant out == Dedupe(ids[..i], skip)
      invariant forall id :: id in seen <==> id in out
    {
      assert ids[..i + 1][..i] == ids[..i];
      var id := TrimSpace(ids[i]);
      if id == "" || (skip != "" && id == skip) { continue; }
      if id in seen { continue; }
      seen := seen + {id};
      out := out + [id];
    }
    assert ids[..|ids|] == ids;
  }

  // ---------------------------------------------------------------- batches

  function Flatten<T>(parts: seq<seq<T>>): (out: seq<T>) {
    if parts == [] then [] else parts[0] + Flatten(parts[1..])
  }

  function Batches(recipients: seq<string>, size: nat): (out: seq<seq<string>>)
    requires size > 0
  {
    if recipients == [] then []
    else if |recipients| <= size then [recipients]
    else [recipients[..size]] + Batches(recipients[size..], size)
  }

  /** Batches lose, repeat and reorder nobody; all but the last are full; there are ceil(n/size). */
  lemma {:induction false} BatchesExact(recipients: seq<string>, size: nat)
    requires size > 0
    ensures var out := Batches(recipients, size);
            && Flatten(out) == recipients
            && (forall b :: 0 <= b < |out| ==> 0 < |out[b]| <= size)
            && (forall b :: 0 <= b < |out| - 1 ==> |out[b]| == size)
            && (|out| - 1) * size < |recipients| <= |out| * size
  {
    if |recipients| > size {
      var rest := recipients[size..];
      BatchesExact(rest, size);
      var tail := Batches(rest, size);
      assert Batches(recipients, size)[1..] == tail;
      assert (|tail| + 1) * size == |tail| * size + size;
    } else if recipients != [] {
      assert Flatten([recipients]) == recipients + Flatten<string>([]);
    }
  }

  /** A non-positive batch size means 64. */
  method BatchRecipients(recipients: seq<string>, batchSize: int) returns (out: seq<seq<string>>)
    ensures out == Batches(recipients, if batchSize <= 0 then 64 else batchSize)
  {
    var size: nat := if batchSize <= 0 then 64 else batchSize;
    out := [];
    if |recipients| == 0 { return; }
    var i := 0;
    ghost var rest := recipients;
    while i < |recipients|
      invariant 0 <= i
      invariant rest == if i < |recipients| then recipients[i..] else []
      invariant out + Batches(rest, size) == Batches(recipients, size)
      decreases |recipients| - i
    {
      var end := i + size;
      if end > |recipients| { end := |recipients|; }
      BatchesStep(rest, size);
      assert recipients[i..end] == if |rest| <= size then rest else rest[..size];
      out := out + [recipients[i..end]];
      i := i + size;
      rest := if |rest| <= size then [] else rest[size..];
    }
  }

  lemma BatchesStep(rest: seq<string>, size: nat)
    requires size > 0 && rest != []
    ensures Batches(rest, size) == if |rest| <= size then [rest] + Batches([], size)
                                   else [rest[..size]] + Batches(rest[size..], size)
  {
  }

  /** In a duplicate-free list cut into parts, a value determines its part and offset. */
  lemma {:induction false} PartsDisjoint<T>(parts: seq<seq<T>>, b: nat, i: nat, b': nat, i': nat)
    requires NoDuplicates(Flatten(parts))
    requires b < |parts| && i < |parts[b]| && b' < |parts| && i' < |parts[b']|
    requires parts[b][i] == parts[b'][i']
    ensures b == b' && i == i'
  {
    var head, tail := parts[0], Flatten(parts[1..]);
    assert forall k :: 0 <= k < |tail| ==> tail[k] == Flatten(parts)[|head| + k];
    assert forall k :: 0 <= k < |head| ==> head[k] == Flatten(parts)[k];
    if b > 0 && b' > 0 {
      PartsDisjoint(parts[1..], b - 1, i, b' - 1, i');
    } else if b > 0 {
      InFlatten(parts[1..], b - 1, i);
    } else if b' > 0 {
      InFlatten(parts[1..], b' - 1, i');
    }
  }

  lemma {:induction false} InFlatten<T>(parts: seq<seq<T>>, b: nat, i: nat)
    requires b < |parts| && i < |parts[b]|
    ensures parts[b][i] in Flatten(parts)
  {
    if b > 0 { InFlatten(parts[1..], b - 1, i); }
  }

  lemma {:induction false} FlattenMember<T>(parts: seq<seq<T>>, x: T) returns (b: nat, i: nat)
    requires x in Flatten(parts)
    ensures b < |parts| && i < |parts[b]| && parts[b][i] == x
  {
    if x in parts[0] {
      b := 0;
      i :| 0 <= i < |parts[0]| && parts[0][i] == x;
    } else {
      b, i := FlattenMember(parts[1..], x);
      b := b + 1;
    }
  }
}
