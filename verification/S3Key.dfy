/** Escaping object keys for a URL path: split on '/', percent-encode each segment, join. */
module S3Key {
  import opened Text

  type Byte = b: int | 0 <= b < 256
  type Bytes = seq<Byte>

  const SLASH: Byte := 47
  const PERCENT: Byte := 37

  predicate IsAlphanumeric(b: Byte) {
    48 <= b <= 57 || 65 <= b <= 90 || 97 <= b <= 122
  }

  /** Bytes url.PathEscape leaves alone: alphanumerics and - _ . ~ $ & + = : @ */
  predicate Plain(b: Byte) {
    IsAlphanumeric(b) || b in {45, 95, 46, 126, 36, 38, 43, 61, 58, 64}
  }

  function HexDigit(v: nat): Byte
    requires v < 16
  {
    if v < 10 then 48 + v else 55 + v
  }

  function HexValue(b: Byte): Option<nat> {
    if 48 <= b <= 57 then Some(b - 48)
    else if 65 <= b <= 70 then Some(b - 55)
    else if 97 <= b <= 102 then Some(b - 87)
    else None
  }

  function EscapeByte(b: Byte): Bytes {
    if Plain(b) then [b] else [PERCENT, HexDigit(b / 16), HexDigit(b % 16)]
  }

  function PathEscape(s: Bytes): (r: Bytes)
    ensures forall b :: b in r ==> Plain(b) || b == PERCENT
  {
    if s == [] then [] else EscapeByte(s[0]) + PathEscape(s[1..])
  }

  /** Percent-decoding; a '%' without two hex digits is an error. */
  function PathUnescape(s: Bytes): Option<Bytes> {
    if s == [] then Some([])
    else if s[0] != PERCENT then
      match PathUnescape(s[1..])
      case Some(rest) => Some([s[0]] + rest)
      case None => None
    else if |s| < 3 || HexValue(s[1]).None? || HexValue(s[2]).None? then None
    else
      match PathUnescape(s[3..])
      case Some(rest) => Some([16 * HexValue(s[1]).value + HexValue(s[2]).value] + rest)
      case None => None
  }

  function Split(s: Bytes): (parts: seq<Bytes>)
    ensures |parts| > 0
    ensures forall p :: p in parts ==> SLASH !in p
  {
    if s == [] then [[]]
    else
      var rest := Split(s[1..]);
      if s[0] == SLASH then [[]] + rest else [[s[0]] + rest[0]] + rest[1..]
  }

  function Join(parts: seq<Bytes>): Bytes
    requires |parts| > 0
  {
    if |parts| == 1 then parts[0] else parts[0] + [SLASH] + Join(parts[1..])
  }

  function EscapeAll(parts: seq<Bytes>): (r: seq<Bytes>)
    ensures |r| == |parts|
    ensures forall i :: 0 <= i < |parts| ==> r[i] == PathEscape(parts[i])
  {
    seq(|parts|, i requires 0 <= i < |parts| => PathEscape(parts[i]))
  }

  function UnescapeAll(parts: seq<Bytes>): Option<seq<Bytes>> {
    if parts == [] then Some([])
    else match (PathUnescape(parts[0]), UnescapeAll(parts[1..]))
      case (Some(p), Some(rest)) => Some([p] + rest)
      case _ => None
  }

  function Escaped(key: Bytes): Bytes {
    Join(EscapeAll(Split(key)))
  }

  /** The inverse: split, decode each segment, join. */
  function Unescaped(s: Bytes): Option<Bytes> {
    match UnescapeAll(Split(s))
    case Some(parts) => if parts == [] then None else Some(Join(parts))
    case None => None
  }

  method EscapeS3Key(key: Bytes) returns (out: Bytes)
    ensures out == Escaped(key)
  {
    hide PathEscape, Split, Join;
    var segments := Split(key);
    var parts := new Bytes[|segments|](i requires 0 <= i < |segments| => segments[i]);
    for i := 0 to parts.Length
      invariant forall j :: 0 <= j < parts.Length ==> parts[j] == if j < i then PathEscape(segments[j]) else segments[j]
    {
      parts[i] := PathEscape(parts[i]);
    }
    assert parts[..] == EscapeAll(segments);
    out := Join(parts[..]);
  }

  // ---------------------------------------------------------------- round trip

  lemma UnescapeByte(b: Byte, rest: Bytes)
    ensures PathUnescape(EscapeByte(b) + rest) ==
            match PathUnescape(rest) case Some(r) => Some([b] + r) case None => None
  {
    var s := EscapeByte(b) + rest;
    if Plain(b) {
      assert s[1..] == rest;
    } else {
      assert s[3..] == rest;
      assert 16 * (b / 16) + b % 16 == b;
    }
  }

  lemma {:induction false} SegmentRoundTrip(s: Bytes)
    ensures PathUnescape(PathEscape(s)) == Some(s)
  {
    if s != [] {
      SegmentRoundTrip(s[1..]);
      UnescapeByte(s[0], PathEscape(s[1..]));
      assert [s[0]] + s[1..] == s;
    }
  }

  lemma {:induction false} AllRoundTrip(parts: seq<Bytes>)
    ensures UnescapeAll(EscapeAll(parts)) == Some(parts)
  {
    if parts != [] {
      SegmentRoundTrip(parts[0]);
      AllRoundTrip(parts[1..]);
      assert EscapeAll(parts)[1..] == EscapeAll(parts[1..]);
      assert [parts[0]] + parts[1..] == parts;
    }
  }

  lemma {:induction false} JoinSplit(s: Bytes)
    ensures Join(Split(s)) == s
  {
    if s != [] {
      var rest := Split(s[1..]);
      JoinSplit(s[1..]);
      if s[0] == SLASH {
        assert Split(s)[1..] == rest;
      } else {
        assert Split(s)[1..] == rest[1..];
      }
    }
  }

  lemma {:induction false} SplitJoin(parts: seq<Bytes>)
    requires |parts| > 0 && forall p :: p in parts ==> SLASH !in p
    ensures Split(Join(parts)) == parts
  {
    if |parts| == 1 {
      SplitSegment(parts[0], []);
      assert parts[0] + [] == parts[0];
    } else {
      SplitJoin(parts[1..]);
      var tail := Join(parts[1..]);
      SplitSegment(parts[0], [SLASH] + tail);
      assert parts[0] + [SLASH] + tail == parts[0] + ([SLASH] + tail);
      assert ([SLASH] + tail)[1..] == tail;
      assert Split([SLASH] + tail) == [[]] + parts[1..];
      assert parts[0] + [] == parts[0];
      assert [parts[0]] + parts[1..] == parts;
    }
  }

  /** A slash-free segment in front of the rest lengthens the first part only. */
  lemma {:induction false} SplitSegment(p: Bytes, rest: Bytes)
    requires SLASH !in p
    ensures Split(p + rest) == [p + Split(rest)[0]] + Split(rest)[1..]
  {
    if p == [] {
      assert p + rest == rest;
      assert p + Split(rest)[0] == Split(rest)[0];
      assert [Split(rest)[0]] + Split(rest)[1..] == Split(rest);
    } else {
      SplitSegment(p[1..], rest);
      assert (p + rest)[1..] == p[1..] + rest;
      assert [p[0]] + (p[1..] + Split(rest)[0]) == p + Split(rest)[0];
    }
  }

  lemma EscapedSplits(key: Bytes)
    ensures Split(Escaped(key)) == EscapeAll(Split(key))
  {
    var parts := EscapeAll(Split(key));
    forall p | p in parts ensures SLASH !in p {
      var i :| 0 <= i < |parts| && parts[i] == p;
      assert p == PathEscape(Split(key)[i]);
    }
    SplitJoin(parts);
  }

  /** Every key survives escaping and unescaping. */
  lemma KeyRoundTrip(key: Bytes)
    ensures Unescaped(Escaped(key)) == Some(key)
  {
    EscapedSplits(key);
    AllRoundTrip(Split(key));
    JoinSplit(key);
  }

  /** So no two keys share an escaped form. */
  lemma EscapedInjective(a: Bytes, b: Bytes)
    ensures Escaped(a) == Escaped(b) <==> a == b
  {
    KeyRoundTrip(a);
    KeyRoundTrip(b);
  }

  function Slashes(s: Bytes): nat {
    if s == [] then 0 else (if s[0] == SLASH then 1 else 0) + Slashes(s[1..])
  }

  lemma {:induction false} PartsCountSlashes(s: Bytes)
    ensures |Split(s)| == Slashes(s) + 1
  {
    if s != [] { PartsCountSlashes(s[1..]); }
  }

  /** Escaping keeps the path structure: as many '/' as before, and only plain bytes and escapes between them. */
  lemma EscapedShape(key: Bytes)
    ensures Slashes(Escaped(key)) == Slashes(key)
    ensures forall b :: b in Escaped(key) ==> Plain(b) || b == PERCENT || b == SLASH
  {
    EscapedSplits(key);
    PartsCountSlashes(key);
    PartsCountSlashes(Escaped(key));
    forall b | b in Escaped(key) ensures Plain(b) || b == PERCENT || b == SLASH {
      if b != SLASH { InSomePart(EscapeAll(Split(key)), b); }
    }
  }

  lemma {:induction false} InSomePart(parts: seq<Bytes>, b: Byte)
    requires |parts| > 0 && b in Join(parts) && b != SLASH
    ensures exists i :: 0 <= i < |parts| && b in parts[i]
  {
    if b !in parts[0] {
      InSomePart(parts[1..], b);
      var i :| 0 <= i < |parts| - 1 && b in parts[1..][i];
      assert b in parts[i + 1];
    } else {
      assert b in parts[0];
    }
  }

  // ---------------------------------------------------------------- which bytes, and how they are written

  /** The bytes left alone, as characters: letters, digits and these ten; all others are escaped. */
  lemma PlainExact(b: Byte)
    ensures Plain(b) <==> var c := b as char;
                          'a' <= c <= 'z' || 'A' <= c <= 'Z' || '0' <= c <= '9'
                          || c == '-' || c == '_' || c == '.' || c == '~' || c == '$' || c == '&' || c == '+' || c == '=' || c == ':' || c == '@'
  {
  }

  lemma HexExact(v: nat)
    requires v < 16
    ensures HexDigit(v) as char == "0123456789ABCDEF"[v] && HexValue(HexDigit(v)) == Some(v)
  {
  }

  lemma ByteExact(b: Byte)
    ensures EscapeByte(b) ==
            if Plain(b) then [b]
            else ['%' as int, "0123456789ABCDEF"[b / 16] as int, "0123456789ABCDEF"[b % 16] as int]
  {
    hide Plain, HexDigit;
    HexExact(b / 16);
    HexExact(b % 16);
  }

  lemma EscapeNil()
    ensures PathEscape([]) == []
  {
  }

  lemma EscapeHead(b: Byte, rest: Bytes)
    ensures PathEscape([b] + rest) == EscapeByte(b) + PathEscape(rest)
  {
    assert ([b] + rest)[1..] == rest;
  }

  /** Each byte of a segment is written, in its turn, as itself or as '%' and two upper-case digits. */
  lemma {:induction false} SegmentExact(before: Bytes, b: Byte, after: Bytes)
    ensures PathEscape(before + [b] + after) ==
            PathEscape(before)
            + (if Plain(b) then [b] else
                 ['%' as int, "0123456789ABCDEF"[b / 16] as int, "0123456789ABCDEF"[b % 16] as int])
            + PathEscape(after)
  {
    hide *;
    ByteExact(b);
    if before == [] {
      assert before + [b] + after == [b] + after;
      EscapeHead(b, after);
      EscapeNil();
    } else {
      var x, tail := before[0], before[1..];
      SegmentExact(tail, b, after);
      EscapeHead(x, tail + [b] + after);
      EscapeHead(x, tail);
      assert before == [x] + tail && before + [b] + after == [x] + (tail + [b] + after);
      Reassociate(EscapeByte(x), PathEscape(tail), EscapeByte(b), PathEscape(after));
    }
  }

  lemma Reassociate(a: Bytes, b: Bytes, c: Bytes, d: Bytes)
    ensures a + (b + c + d) == a + b + c + d
  {
  }

  /** Segments are what stands between the '/' characters. */
  lemma SlashExact(p: Bytes, rest: Bytes)
    requires '/' as int !in p
    ensures Escaped(p) == PathEscape(p)
    ensures Escaped(p + ['/' as int] + rest) == PathEscape(p) + ['/' as int] + Escaped(rest)
  {
    hide PathEscape;
    SplitSegment(p, []);
    assert p + [] == p;
    assert Escaped(p) == PathEscape(p) by { assert Split(p) == [p]; }
    SplitSegment(p, [SLASH] + rest);
    assert p + [SLASH] + rest == p + ([SLASH] + rest);
    assert ([SLASH] + rest)[1..] == rest;
    assert Split(p + [SLASH] + rest) == [p] + Split(rest);
    EscapeCons(p, Split(rest));
  }

  lemma EscapeCons(p: Bytes, parts: seq<Bytes>)
    requires |parts| > 0
    ensures Join(EscapeAll([p] + parts)) == PathEscape(p) + [SLASH] + Join(EscapeAll(parts))
  {
    hide PathEscape;
    assert EscapeAll([p] + parts)[1..] == EscapeAll(parts);
  }
}
