/** UTF-8 (RFC 3629) and the boundary-safe truncation of audited bodies (src/billing.rs, `truncate_utf8`). */
module Utf8 {
  import opened Prelude

  type Byte = b: int | 0 <= b < 256
  type CodePoint = c: int | 0 <= c < 0xD800 || 0xE000 <= c <= 0x10FFFF

  /** RFC 3629, section 3. */
  function EncodeOne(c: CodePoint): (s: seq<Byte>)
    ensures 1 <= |s| <= 4
  {
    if c < 0x80 then [c]
    else if c < 0x800 then [0xC0 + c / 0x40, 0x80 + c % 0x40]
    else if c < 0x1_0000 then [0xE0 + c / 0x40 / 0x40, 0x80 + c / 0x40 % 0x40, 0x80 + c % 0x40]
    else [0xF0 + c / 0x40 / 0x40 / 0x40, 0x80 + c / 0x40 / 0x40 % 0x40, 0x80 + c / 0x40 % 0x40, 0x80 + c % 0x40]
  }

  function Blocks(cs: seq<CodePoint>): seq<seq<Byte>> { seq(|cs|, i requires 0 <= i < |cs| => EncodeOne(cs[i])) }

  /** Text is well formed when it is the encoding of some code points. */
  function Encode(cs: seq<CodePoint>): seq<Byte> { Flatten(Blocks(cs)) }

  lemma EncodeStep(cs: seq<CodePoint>)
    requires cs != []
    ensures Encode(cs) == EncodeOne(cs[0]) + Encode(cs[1..])
  {
    assert Blocks(cs)[1..] == Blocks(cs[1..]);
  }

  predicate Continuation(b: Byte) { 0x80 <= b < 0xC0 }

  /** Rust's `str::is_char_boundary`. */
  predicate IsCharBoundary(s: seq<Byte>, i: nat) {
    i == 0 || i == |s| || (i < |s| && !Continuation(s[i]))
  }

  /** The suffix "…[截断]". */
  const SUFFIX: seq<Byte> := [0xE2, 0x80, 0xA6, 0x5B, 0xE6, 0x88, 0xAA, 0xE6, 0x96, 0xAD, 0x5D]

  /** `end` is the last boundary at or below the limit. */
  predicate IsCut(s: seq<Byte>, limit: nat, end: nat) {
    end <= limit && IsCharBoundary(s, end) && forall i | end < i <= limit :: !IsCharBoundary(s, i)
  }

  method TruncateUtf8(s: seq<Byte>, limit: nat) returns (r: seq<Byte>)
    ensures |s| <= limit ==> r == s
    ensures |s| > limit ==> exists end: nat :: end <= |s| && IsCut(s, limit, end) && r == s[..end] + SUFFIX
  {
    if |s| <= limit {
      return s;
    }
    var end := limit;
    while end > 0 && !IsCharBoundary(s, end)
      invariant 0 <= end <= limit
      invariant forall i | end < i <= limit :: !IsCharBoundary(s, i)
    {
      end := end - 1;
    }
    assert IsCut(s, limit, end);
    r := s[..end] + SUFFIX;
  }

  // ----- boundaries are exactly the ends of encoded prefixes

  lemma EncodeOneShape(c: CodePoint)
    ensures var s := EncodeOne(c); !Continuation(s[0]) && forall i | 1 <= i < |s| :: Continuation(s[i])
  {
  }

  lemma EncodeStart(cs: seq<CodePoint>)
    ensures cs != [] ==> Encode(cs) != [] && !Continuation(Encode(cs)[0])
  {
    if cs != [] {
      EncodeStep(cs);
      EncodeOneShape(cs[0]);
    }
  }

  lemma EncodePrefix(cs: seq<CodePoint>, k: nat)
    requires k <= |cs|
    ensures Encode(cs) == Encode(cs[..k]) + Encode(cs[k..])
  {
    assert Blocks(cs)[..k] == Blocks(cs[..k]) && Blocks(cs)[k..] == Blocks(cs[k..]);
    FlattenSplit(Blocks(cs), k);
  }

  /** Every boundary ends an encoded prefix. */
  lemma {:induction false} BoundaryEndsPrefix(cs: seq<CodePoint>, i: nat) returns (k: nat)
    requires i <= |Encode(cs)| && IsCharBoundary(Encode(cs), i)
    ensures k <= |cs| && Encode(cs)[..i] == Encode(cs[..k])
  {
    if i == 0 {
      k := 0;
    } else {
      EncodeStep(cs);
      var head, tail := EncodeOne(cs[0]), Encode(cs[1..]);
      EncodeOneShape(cs[0]);
      assert forall j | 0 <= j < |head| :: Encode(cs)[j] == head[j];
      var i' := i - |head|;
      assert 0 <= i' < |tail| ==> Encode(cs)[i] == tail[i'];
      k := BoundaryEndsPrefix(cs[1..], i');
      k := k + 1;
      assert Encode(cs)[..i] == head + tail[..i'];
      EncodeStep(cs[..k]);
      assert cs[..k][1..] == cs[1..][..k - 1];
    }
  }

  /** The end of an encoded prefix is a boundary. */
  lemma PrefixEndsAtBoundary(cs: seq<CodePoint>, k: nat)
    requires k <= |cs|
    ensures |Encode(cs[..k])| <= |Encode(cs)| && IsCharBoundary(Encode(cs), |Encode(cs[..k])|)
  {
    EncodePrefix(cs, k);
    EncodeStart(cs[k..]);
    var i := |Encode(cs[..k])|;
    assert i < |Encode(cs)| ==> Encode(cs)[i] == Encode(cs[k..])[0];
  }

  /** An over-long text keeps whole code points, as many as fit, and loses at most three bytes to the boundary. */
  lemma CutKeepsCodePoints(cs: seq<CodePoint>, limit: nat, end: nat)
    requires limit < |Encode(cs)| && IsCut(Encode(cs), limit, end)
    ensures exists k :: 0 <= k < |cs| && Encode(cs)[..end] == Encode(cs[..k]) && limit < |Encode(cs[..k + 1])|
    ensures limit - 3 <= end
  {
    var k := BoundaryEndsPrefix(cs, end);
    assert Encode(cs)[..end] == Encode(cs[..k]);
    assert cs[..|cs|] == cs;
    assert k < |cs|;
    PrefixEndsAtBoundary(cs, k + 1);
    EncodePrefix(cs[..k + 1], k);
    assert cs[..k + 1][..k] == cs[..k] && cs[..k + 1][k..] == [cs[k]];
    EncodeStep([cs[k]]);
  }

  // ----- decoding

  /** The payload of a continuation byte. */
  function Six(b: Byte): int { b as int - 0x80 }

  function DecodeOne(s: seq<Byte>): int
    requires s != []
  {
    var a := s[0] as int;
    if a < 0x80 then a
    else if a < 0xE0 && |s| >= 2 then (a - 0xC0) * 0x40 + Six(s[1])
    else if a < 0xF0 && |s| >= 3 then (a - 0xE0) * 0x1000 + Six(s[1]) * 0x40 + Six(s[2])
    else if |s| >= 4 then (a - 0xF0) * 0x4_0000 + Six(s[1]) * 0x1000 + Six(s[2]) * 0x40 + Six(s[3])
    else -1
  }

  function Width(b: Byte): (n: nat)
    ensures 1 <= n
  {
    if b < 0x80 then 1 else if b < 0xE0 then 2 else if b < 0xF0 then 3 else 4
  }

  function Decode(s: seq<Byte>): seq<int> {
    if s == [] then []
    else
      var n := Width(s[0]);
      [DecodeOne(s)] + (if n < |s| then Decode(s[n..]) else [])
  }

  lemma DecodeOneEncodeOne(c: CodePoint)
    ensures var e := EncodeOne(c); Width(e[0]) == |e| && DecodeOne(e) == c
  {
  }

  lemma DecodeOneLocal(e: seq<Byte>, tail: seq<Byte>)
    requires e != [] && Width(e[0]) == |e|
    ensures DecodeOne(e + tail) == DecodeOne(e)
  {
    assert forall i | 0 <= i < |e| :: (e + tail)[i] == e[i];
  }

  lemma {:induction false} DecodeEncode(cs: seq<CodePoint>)
    ensures Decode(Encode(cs)) == cs
  {
    if cs != [] {
      var head, tail := EncodeOne(cs[0]), Encode(cs[1..]);
      EncodeStep(cs);
      DecodeOneEncodeOne(cs[0]);
      DecodeOneLocal(head, tail);
      assert (head + tail)[|head|..] == tail;
      DecodeEncode(cs[1..]);
      assert cs == [cs[0]] + cs[1..];
    }
  }

  /** What is kept decodes to a prefix of the original text. */
  lemma CutDecodes(cs: seq<CodePoint>, limit: nat, end: nat)
    requires limit < |Encode(cs)| && IsCut(Encode(cs), limit, end)
    ensures Decode(Encode(cs)[..end]) <= cs
  {
    CutKeepsCodePoints(cs, limit, end);
    var k :| 0 <= k < |cs| && Encode(cs)[..end] == Encode(cs[..k]);
    DecodeEncode(cs[..k]);
  }

  /** One code point after the other. */
  lemma DecodeCons(e: seq<Byte>, rest: seq<Byte>)
    requires e != [] && Width(e[0]) == |e|
    ensures Decode(e + rest) == [DecodeOne(e)] + Decode(rest)
  {
    DecodeOneLocal(e, rest);
    assert (e + rest)[|e|..] == rest;
  }

  /** The mark appended to a cut text. */
  lemma SuffixReads()
    ensures Decode(SUFFIX) == [0x2026] + ['[' as int] + [0x622A] + [0x65AD] + [']' as int]
  {
    var a: seq<Byte>, b: seq<Byte>, c: seq<Byte> := [0xE2, 0x80, 0xA6], [0x5B], [0xE6, 0x88, 0xAA];
    var d: seq<Byte>, e: seq<Byte>, none: seq<Byte> := [0xE6, 0x96, 0xAD], [0x5D], [];
    DecodeCons(e, none);
    DecodeCons(d, e + none);
    DecodeCons(c, d + (e + none));
    DecodeCons(b, c + (d + (e + none)));
    DecodeCons(a, b + (c + (d + (e + none))));
    assert SUFFIX == a + (b + (c + (d + (e + none))));
  }

  /** Examples of RFC 3629, section 7: "A<NOT IDENTICAL TO><ALPHA>." and a character beyond the basic plane. */
  lemma StandardExamples()
    ensures EncodeOne(0x41) == [0x41] && EncodeOne(0x391) == [0xCE, 0x91] && EncodeOne(0x2262) == [0xE2, 0x89, 0xA2]
    ensures EncodeOne(0x233B4) == [0xF0, 0xA3, 0x8E, 0xB4]
  {
  }
}
