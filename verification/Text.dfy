/** String primitives the services rely on: trimming and byte order. */
module Text {

  datatype Option<+T> = None | Some(value: T)

  /** Unicode White_Space, the characters strings.TrimSpace removes. */
  predicate IsSpace(c: char) {
    || '\t' <= c <= '\r'
    || c in {' ', '\U{0085}', '\U{00A0}', '\U{1680}', '\U{2028}', '\U{2029}', '\U{202F}', '\U{205F}', '\U{3000}'}
    || '\U{2000}' <= c <= '\U{200A}'
  }

  function TrimLeft(s: string): (r: string)
    ensures r == "" || !IsSpace(r[0])
    ensures r <= s || |r| < |s|
    ensures r != "" ==> s != "" && r[|r| - 1] == s[|s| - 1]
  {
    if s != "" && IsSpace(s[0]) then TrimLeft(s[1..]) else s
  }

  function TrimRight(s: string): (r: string)
    ensures r <= s
    ensures r == "" || !IsSpace(r[|r| - 1])
  {
    if s != "" && IsSpace(s[|s| - 1]) then TrimRight(s[..|s| - 1]) else s
  }

  function TrimSpace(s: string): (r: string)
    ensures Trimmed(r)
    ensures Trimmed(s) ==> r == s
  {
    TrimRight(TrimLeft(s))
  }

  /** No white space at either end. */
  predicate Trimmed(s: string) {
    s != "" ==> !IsSpace(s[0]) && !IsSpace(s[|s| - 1])
  }

  /** Strict lexicographic order on code points, which is also the order of the UTF-8 bytes. */
  predicate Less(a: string, b: string) {
    b != "" && (a == "" || a[0] < b[0] || (a[0] == b[0] && Less(a[1..], b[1..])))
  }

  lemma {:induction false} LessTotal(a: string, b: string)
    ensures a == b || Less(a, b) || Less(b, a)
    ensures !(Less(a, b) && Less(b, a))
    ensures !Less(a, a)
  {
    if a != "" && b != "" {
      LessTotal(a[1..], b[1..]);
      assert a == [a[0]] + a[1..] && b == [b[0]] + b[1..];
    }
    if a != "" { LessTotal(a[1..], a[1..]); }
  }

  lemma {:induction false} LessTransitive(a: string, b: string, c: string)
    requires Less(a, b) && Less(b, c)
    ensures Less(a, c)
  {
    if a != "" && a[0] == b[0] == c[0] {
      LessTransitive(a[1..], b[1..], c[1..]);
    }
  }

  // ---------------------------------------------------------------- what trimming and the order mean

  /** White space by code point: tab to carriage return, space, and the Unicode separators. */
  lemma SpaceExact(c: char)
    ensures IsSpace(c) <==> (9 <= c as int <= 13 || c as int in {32, 133, 160, 5760, 8232, 8233, 8239, 8287, 12288}
                             || 8192 <= c as int <= 8202)
    ensures c as int < 128 ==> (IsSpace(c) <==> c in "\t\n\U{000B}\U{000C}\r ")
    ensures 'a' <= c <= 'z' || 'A' <= c <= 'Z' || '0' <= c <= '9' || c in "+:-_" ==> !IsSpace(c)
  {
  }

  predicate AllSpace(s: string) {
    forall c :: c in s ==> IsSpace(c)
  }

  lemma {:induction false} TrimLeftExact(s: string) returns (i: nat)
    ensures i <= |s| && TrimLeft(s) == s[i..] && AllSpace(s[..i])
  {
    i := 0;
    if s != "" && IsSpace(s[0]) {
      var k := TrimLeftExact(s[1..]);
      i := k + 1;
      assert s[1..][k..] == s[i..] && s[..i] == [s[0]] + s[1..][..k];
    }
  }

  lemma {:induction false} TrimRightExact(s: string) returns (j: nat)
    ensures j <= |s| && TrimRight(s) == s[..j] && AllSpace(s[j..])
  {
    j := |s|;
    if s != "" && IsSpace(s[|s| - 1]) {
      var n := |s| - 1;
      j := TrimRightExact(s[..n]);
      assert s[..n][..j] == s[..j] && s[j..] == s[..n][j..] + [s[n]];
    }
  }

  /** `r` is `s` without white space at its ends. */
  ghost predicate Strips(s: string, r: string, i: nat, j: nat) {
    i <= j <= |s| && r == s[i..j] && AllSpace(s[..i]) && AllSpace(s[j..]) && Trimmed(r)
  }

  /** Trimming takes white space off both ends, all of it and nothing else. */
  lemma TrimSpaceExact(s: string)
    ensures exists i, j :: Strips(s, TrimSpace(s), i, j)
  {
    var i := TrimLeftExact(s);
    var j := TrimRightExact(s[i..]);
    assert s[i..][..j] == s[i..i + j] && s[i..][j..] == s[i + j..];
    assert Strips(s, TrimSpace(s), i, i + j);
  }

  lemma TrimmedPart(s: string, r: string, i: nat, j: nat, k: nat, l: nat)
    requires Strips(s, r, i, j) && r != "" && k <= l <= |s| && AllSpace(s[..k]) && AllSpace(s[l..])
    ensures k <= i && j <= l
  {
    assert r[0] == s[i] && r[|r| - 1] == s[j - 1];
    forall t | 0 <= t < k ensures IsSpace(s[t]) { assert s[..k][t] == s[t]; }
    forall t | l <= t < |s| ensures IsSpace(s[t]) { assert s[l..][t - l] == s[t]; }
  }

  /** So the result is determined: anything that strips `s` is TrimSpace(s). */
  lemma TrimSpaceUnique(s: string, r: string, i: nat, j: nat)
    requires Strips(s, r, i, j)
    ensures r == TrimSpace(s)
  {
    TrimSpaceExact(s);
    var k, l :| Strips(s, TrimSpace(s), k, l);
    hide TrimSpace;
    if r != "" { TrimmedPart(s, r, i, j, k, l); }
    if TrimSpace(s) != "" { TrimmedPart(s, TrimSpace(s), k, l, i, j); }
  }

  /** The first place where two texts differ decides their order; a proper prefix comes first. */
  ghost predicate Precedes(a: string, b: string, k: nat) {
    && k <= |a| && k < |b| && a[..k] == b[..k]
    && (k == |a| || a[k] as int < b[k] as int)
  }

  lemma {:induction false} LessExact(a: string, b: string)
    ensures Less(a, b) <==> exists k: nat :: Precedes(a, b, k)
  {
    if a != "" && b != "" && a[0] == b[0] {
      LessExact(a[1..], b[1..]);
      if k: nat :| Precedes(a[1..], b[1..], k) {
        assert a[..k + 1] == [a[0]] + a[1..][..k] && b[..k + 1] == [b[0]] + b[1..][..k];
        assert Precedes(a, b, k + 1);
      }
      if k: nat :| Precedes(a, b, k) {
        assert k > 0;
        assert a[1..][..k - 1] == a[..k][1..] && b[1..][..k - 1] == b[..k][1..];
        assert Precedes(a[1..], b[1..], k - 1);
      }
    } else {
      if Less(a, b) { assert Precedes(a, b, 0); }
      if k: nat :| Precedes(a, b, k) {
        if k > 0 { assert a[..k][0] == b[..k][0]; }
      }
    }
  }
}
