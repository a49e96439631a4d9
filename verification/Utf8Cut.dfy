/** The byte-bounded preview cut (internal/agent/loop_tool_preview.go, truncatePreview):
    it must not split a UTF-8 character (sections 3 and 4 of RFC 3629). */
module Utf8Cut {
  import opened Basics

  predicate Continuation(b: Byte) {
    0x80 <= b <= 0xBF
  }

  /** The number of bytes a lead byte announces, 0 when the byte leads nothing. */
  function Announced(b: Byte): nat {
    if b <= 0x7F then 1
    else if 0xC2 <= b <= 0xDF then 2
    else if 0xE0 <= b <= 0xEF then 3
    else if 0xF0 <= b <= 0xF4 then 4
    else 0
  }

  /** The second byte shuts out overlong forms, surrogates and values past U+10FFFF. */
  predicate SecondFits(lead: Byte, b: Byte) {
    match lead
    case 0xE0 => 0xA0 <= b <= 0xBF
    case 0xED => 0x80 <= b <= 0x9F
    case 0xF0 => 0x90 <= b <= 0xBF
    case 0xF4 => 0x80 <= b <= 0x8F
    case _ => Continuation(b)
  }

  /** One well-formed encoding, as the table of section 4 lists them. */
  predicate Encodes(s: seq<Byte>) {
    && s != [] && |s| == Announced(s[0])
    && (|s| > 1 ==> SecondFits(s[0], s[1]))
    && forall i :: 2 <= i < |s| ==> Continuation(s[i])
  }

  // ----- the encoding by arithmetic

  /** The scalar values: up to U+10FFFF, surrogates left out. */
  predicate Scalar(v: int) {
    0 <= v <= 0x10FFFF && !(0xD800 <= v <= 0xDFFF)
  }

  /** The value's bits, six to a continuation byte, the rest in the lead byte. */
  function Utf8(v: nat): seq<Byte>
    requires Scalar(v)
  {
    if v < 0x80 then [v]
    else if v < 0x800 then [0xC0 + v / 64, 0x80 + v % 64]
    else if v < 0x1_0000 then [0xE0 + v / 64 / 64, 0x80 + v / 64 % 64, 0x80 + v % 64]
    else [0xF0 + v / 64 / 64 / 64, 0x80 + v / 64 / 64 % 64, 0x80 + v / 64 % 64, 0x80 + v % 64]
  }

  lemma Digit(a: int, b: Byte)
    requires Continuation(b)
    ensures (a * 64 + (b as int - 0x80)) / 64 == a && (a * 64 + (b as int - 0x80)) % 64 == b as int - 0x80
  {
  }

  lemma Utf8Encodes(v: nat)
    requires Scalar(v)
    ensures Encodes(Utf8(v))
  {
  }

  lemma ShortEncoded(s: seq<Byte>)
    requires Encodes(s) && |s| <= 2
    ensures exists v: nat :: Scalar(v) && Utf8(v) == s
  {
    if |s| == 1 {
      assert Utf8(s[0]) == s;
    } else {
      var v := (s[0] as int - 0xC0) * 64 + (s[1] as int - 0x80);
      Digit(s[0] as int - 0xC0, s[1]);
      assert Scalar(v) && Utf8(v) == s;
    }
  }

  lemma ThreeEncoded(s: seq<Byte>)
    requires Encodes(s) && |s| == 3
    ensures exists v: nat :: Scalar(v) && Utf8(v) == s
  {
    var a := s[0] as int - 0xE0;
    var b := a * 64 + (s[1] as int - 0x80);
    var v := b * 64 + (s[2] as int - 0x80);
    Digit(a, s[1]);
    Digit(b, s[2]);
    assert 0 <= a <= 15;
    assert Scalar(v) && 0x800 <= v < 0x1_0000;
    assert Utf8(v) == s;
  }

  lemma FourEncoded(s: seq<Byte>)
    requires Encodes(s) && |s| == 4
    ensures exists v: nat :: Scalar(v) && Utf8(v) == s
  {
    var a := s[0] as int - 0xF0;
    var b := a * 64 + (s[1] as int - 0x80);
    var c := b * 64 + (s[2] as int - 0x80);
    var v := c * 64 + (s[3] as int - 0x80);
    Digit(a, s[1]);
    Digit(b, s[2]);
    Digit(c, s[3]);
    assert Scalar(v) && 0x1_0000 <= v;
    assert Utf8(v) == s;
  }

  /** The byte table admits exactly the encodings of scalar values. */
  lemma EncodesIff(s: seq<Byte>)
    ensures Encodes(s) <==> exists v: nat :: Scalar(v) && Utf8(v) == s
  {
    OneLeadByte(s);
    if Encodes(s) && |s| <= 2 {
      ShortEncoded(s);
    } else if Encodes(s) && |s| == 3 {
      ThreeEncoded(s);
    } else if Encodes(s) {
      FourEncoded(s);
    }
    forall v: nat | Scalar(v) && Utf8(v) == s
      ensures Encodes(s)
    {
      Utf8Encodes(v);
    }
  }

  /** The last `w` bytes of `s` are one whole character. */
  predicate EndsIn(s: seq<Byte>, w: nat) {
    1 <= w <= |s| && Encodes(s[|s| - w..])
  }

  /** What makes the library's decode of the last rune succeed, or `s` empty. */
  ghost predicate EndsWhole(s: seq<Byte>) {
    s == [] || exists w :: EndsIn(s, w)
  }

  lemma OneLeadByte(s: seq<Byte>)
    ensures Encodes(s) ==> !Continuation(s[0]) && |s| <= 4
    ensures Encodes(s) ==> forall i :: 1 <= i < |s| ==> Continuation(s[i])
  {
  }

  /** The width of the whole character `s` ends with, 0 when there is none. */
  function LastWidth(s: seq<Byte>): nat {
    if EndsIn(s, 1) then 1
    else if EndsIn(s, 2) then 2
    else if EndsIn(s, 3) then 3
    else if EndsIn(s, 4) then 4
    else 0
  }

  lemma LastWidthDecides(s: seq<Byte>)
    requires s != []
    ensures LastWidth(s) > 0 <==> EndsWhole(s)
  {
    forall w | EndsIn(s, w)
      ensures w <= 4
    {
      OneLeadByte(s[|s| - w..]);
    }
  }

  /** For any bytes: a prefix within the limit, ending on a whole character, and the
      longest such prefix. */
  method TruncatePreview(value: seq<Byte>, maxBytes: int) returns (r: seq<Byte>)
    ensures maxBytes <= 0 || |value| <= maxBytes ==> r == value
    ensures 0 < maxBytes < |value| ==>
              && r <= value && |r| <= maxBytes && EndsWhole(r)
              && forall n :: |r| < n <= maxBytes ==> !EndsWhole(value[..n])
  {
    hide EndsWhole, LastWidth;
    if maxBytes <= 0 || |value| <= maxBytes {
      return value;
    }
    r := value[..maxBytes];
    while |r| > 0
      invariant r <= value && |r| <= maxBytes
      invariant forall n :: |r| < n <= maxBytes ==> !EndsWhole(value[..n])
    {
      LastWidthDecides(r);
      if LastWidth(r) > 0 {
        break;
      }
      assert r == value[..|r|];
      r := r[..|r| - 1];
    }
    EmptyEndsWhole();
  }

  lemma EmptyEndsWhole()
    ensures EndsWhole([])
  {
  }

  // ----- valid text

  function Flatten(chars: seq<seq<Byte>>): seq<Byte> {
    if chars == [] then [] else Flatten(chars[..|chars| - 1]) + chars[|chars| - 1]
  }

  ghost predicate ValidText(chars: seq<seq<Byte>>) {
    forall i :: 0 <= i < |chars| ==> Encodes(chars[i])
  }

  /** Where the first `k` characters end. */
  function Boundary(chars: seq<seq<Byte>>, k: nat): nat
    requires k <= |chars|
  {
    |Flatten(chars[..k])|
  }

  lemma BoundaryStep(chars: seq<seq<Byte>>, k: nat)
    requires k < |chars|
    ensures Flatten(chars[..k + 1]) == Flatten(chars[..k]) + chars[k]
  {
    assert chars[..k + 1][..k] == chars[..k];
  }

  lemma {:induction false} FlattenPrefix(chars: seq<seq<Byte>>, k: nat)
    requires k <= |chars|
    ensures Flatten(chars[..k]) <= Flatten(chars)
    decreases |chars| - k
  {
    if k < |chars| {
      BoundaryStep(chars, k);
      FlattenPrefix(chars, k + 1);
    } else {
      assert chars[..k] == chars;
    }
  }

  /** Cutting inside a character never leaves a whole one at the end: what follows its
      lead byte are continuation bytes, and the lead announces more than is left. */
  lemma InsideNotWhole(text: seq<Byte>, start: nat, c: seq<Byte>, n: nat)
    requires Encodes(c) && start + |c| <= |text| && text[start..start + |c|] == c
    requires start < n < start + |c|
    ensures !EndsWhole(text[..n])
  {
    OneLeadByte(c);
    assert forall i :: start <= i < n ==> text[i] == c[i - start];
    forall w: nat | 1 <= w <= n
      ensures !EndsIn(text[..n], w)
    {
      var s := text[..n][n - w..];
      assert forall i :: 0 <= i < w ==> s[i] == text[n - w + i];
      OneLeadByte(s);
      if n - w >= start {
        assert s[0] == c[n - w - start];
      } else {
        assert s[start - (n - w)] == c[0];
      }
    }
  }

  /** In valid text a prefix ends on a whole character exactly at a character boundary. */
  lemma WholeIffBoundary(chars: seq<seq<Byte>>, k: nat, n: nat)
    requires ValidText(chars) && k < |chars|
    requires Boundary(chars, k) <= n < Boundary(chars, k + 1)
    ensures n <= |Flatten(chars)|
    ensures EndsWhole(Flatten(chars)[..n]) <==> n == Boundary(chars, k)
  {
    var text := Flatten(chars);
    BoundaryStep(chars, k);
    FlattenPrefix(chars, k);
    FlattenPrefix(chars, k + 1);
    var start := Boundary(chars, k);
    if n > start {
      InsideNotWhole(text, start, chars[k], n);
    } else if k > 0 {
      BoundaryStep(chars, k - 1);
      var s, w := text[..n], |chars[k - 1]|;
      assert s == Flatten(chars[..k]);
      assert s[|s| - w..] == chars[k - 1];
      assert EndsIn(s, w);
    } else {
      assert chars[..0] == [];
    }
  }

  lemma {:induction false} LastBoundaryWithin(chars: seq<seq<Byte>>, limit: nat, k: nat) returns (found: nat)
    requires k < |chars| && Boundary(chars, k) <= limit < |Flatten(chars)|
    ensures k <= found < |chars| && Boundary(chars, found) <= limit < Boundary(chars, found + 1)
    decreases |chars| - k
  {
    assert chars[..|chars|] == chars;
    if limit < Boundary(chars, k + 1) {
      found := k;
    } else {
      found := LastBoundaryWithin(chars, limit, k + 1);
    }
  }

  /** On valid text the cut is the most whole characters that fit: one more would pass
      the limit, and at most three bytes are given up below it. */
  lemma CutKeepsWholeCharacters(chars: seq<seq<Byte>>, maxBytes: nat, r: seq<Byte>) returns (k: nat)
    requires ValidText(chars) && 0 < maxBytes < |Flatten(chars)|
    requires r <= Flatten(chars) && |r| <= maxBytes && EndsWhole(r)
    requires forall n :: |r| < n <= maxBytes ==> !EndsWhole(Flatten(chars)[..n])
    ensures k < |chars| && r == Flatten(chars[..k])
    ensures |r| <= maxBytes < |Flatten(chars[..k + 1])|
    ensures |r| + 3 >= maxBytes
  {
    var text := Flatten(chars);
    assert chars[..0] == [];
    k := LastBoundaryWithin(chars, maxBytes, 0);
    var best := Boundary(chars, k);
    FlattenPrefix(chars, k);
    BoundaryStep(chars, k);
    OneLeadByte(chars[k]);
    WholeIffBoundary(chars, k, best);
    assert |r| >= best;
    WholeIffBoundary(chars, k, |r|);
    assert r == text[..|r|];
    assert r == Flatten(chars[..k]);
  }
}
