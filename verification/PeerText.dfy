/**
 Capping untrusted text: the escaped string, as UTF-8 bytes (section 3 of RFC 3629), is cut to at most 128 bytes without
 splitting a character.
 */
module PeerTexts {
  const PEER_STR_MAX_LEN: nat := 128

  type Byte = b: int | 0 <= b < 256

  /** A Unicode scalar value: a code point that is not a surrogate. */
  predicate IsScalar(c: int) {
    0 <= c < 0xD800 || 0xE000 <= c <= 0x10FFFF
  }

  type Scalar = c: int | IsScalar(c)

  function EncodeChar(c: Scalar): seq<Byte> {
    assert IsScalar(c);
    if c < 0x80 then [c]
    else if c < 0x800 then [0xC0 + c / 0x40, 0x80 + c % 0x40]
    else if c < 0x1_0000 then [0xE0 + c / 0x1000, 0x80 + c / 0x40 % 0x40, 0x80 + c % 0x40]
    else [0xF0 + c / 0x4_0000, 0x80 + c / 0x1000 % 0x40, 0x80 + c / 0x40 % 0x40, 0x80 + c % 0x40]
  }

  function Encode(cs: seq<Scalar>): seq<Byte> {
    if cs == [] then [] else EncodeChar(cs[0]) + Encode(cs[1..])
  }

  predicate IsContinuation(b: Byte) {
    0x80 <= b < 0xC0
  }

  /** `is_char_boundary`: an end of the string, or a byte that does not continue a character. */
  predicate IsCharBoundary(s: seq<Byte>, i: nat) {
    i == 0 || i == |s| || (i < |s| && !IsContinuation(s[i]))
  }

  /** How many whole characters fit into `cap` bytes. */
  function Fitting(cs: seq<Scalar>, cap: nat): (k: nat)
    ensures k <= |cs|
  {
    if cs == [] || |EncodeChar(cs[0])| > cap then 0 else 1 + Fitting(cs[1..], cap - |EncodeChar(cs[0])|)
  }

  /** The cap applied to escaped text; `cs` are the characters the escaped string consists of. */
  method CapPeerStr(escaped: seq<Byte>, ghost cs: seq<Scalar>) returns (r: seq<Byte>)
    requires escaped == Encode(cs)
    ensures r == Encode(cs[..Fitting(cs, 128)])
    ensures if |escaped| <= 128 then r == escaped else 125 <= |r| <= 128
  {
    if |escaped| <= PEER_STR_MAX_LEN {
      AllFit(cs, PEER_STR_MAX_LEN);
      assert cs[..|cs|] == cs;
      return escaped;
    }
    var end := PEER_STR_MAX_LEN;
    ghost var cut := LastBoundary(cs, PEER_STR_MAX_LEN);
    while end > 0 && !IsCharBoundary(escaped, end)
      invariant cut <= end <= PEER_STR_MAX_LEN
      invariant forall j :: end < j <= PEER_STR_MAX_LEN ==> !IsCharBoundary(escaped, j)
    {
      end := end - 1;
    }
    return escaped[..end];
  }

  // ----- the shape of the encoding -----

  /** A character is one to four bytes, and only its first byte is not a continuation. */
  lemma CharShape(c: Scalar)
    ensures var e := EncodeChar(c);
            1 <= |e| <= 4 && !IsContinuation(e[0]) && forall i :: 0 < i < |e| ==> IsContinuation(e[i])
  {
  }

  function Payload(b: Byte): int {
    b as int - 128
  }

  /** The code point a character's bytes stand for, by their number and their payload bits. */
  function DecodeChar(e: seq<Byte>): int
    requires 1 <= |e| <= 4
  {
    var first := e[0] as int;
    if |e| == 1 then first
    else if |e| == 2 then (first - 192) * 64 + Payload(e[1])
    else if |e| == 3 then ((first - 224) * 64 + Payload(e[1])) * 64 + Payload(e[2])
    else (((first - 240) * 64 + Payload(e[1])) * 64 + Payload(e[2])) * 64 + Payload(e[3])
  }

  /** Six bits at a time. */
  lemma SixBits(c: int)
    requires c >= 0
    ensures c == c / 64 * 64 + c % 64 && c / 64 == c / 4096 * 64 + c / 64 % 64
    ensures c / 4096 == c / 262144 * 64 + c / 4096 % 64
  {
    var a := c / 64;
    assert c == 4096 * (a / 64) + (a % 64 * 64 + c % 64);
    assert c / 4096 == a / 64;
    assert c / 4096 == 64 * (c / 4096 / 64) + c / 4096 % 64;
  }

  /** A character's bytes decode to it, there are as many as its size calls for, and the first announces how many. */
  lemma CharRoundTrip(c: Scalar)
    ensures DecodeChar(EncodeChar(c)) == c
    ensures |EncodeChar(c)| == (if c < 128 then 1 else if c < 2048 then 2 else if c < 65536 then 3 else 4)
    ensures var e := EncodeChar(c);
            && (|e| == 1 <==> e[0] < 128) && (|e| == 2 <==> 192 <= e[0] < 224)
            && (|e| == 3 <==> 224 <= e[0] < 240) && (|e| == 4 <==> 240 <= e[0])
  {
    assert IsScalar(c);
    SixBits(c);
  }

  lemma {:induction false} AllFit(cs: seq<Scalar>, cap: nat)
    ensures |Encode(cs)| <= cap <==> Fitting(cs, cap) == |cs|
  {
    if cs != [] {
      if |EncodeChar(cs[0])| <= cap { AllFit(cs[1..], cap - |EncodeChar(cs[0])|); }
    }
  }

  /** Character boundaries are exactly the lengths of encoded whole-character prefixes. */
  lemma {:induction false} BoundariesArePrefixes(cs: seq<Scalar>, i: nat)
    requires i <= |Encode(cs)|
    ensures IsCharBoundary(Encode(cs), i) <==> exists k :: 0 <= k <= |cs| && |Encode(cs[..k])| == i
    decreases |cs|
  {
    if cs == [] {
      assert cs[..0] == [];
    } else {
      var e, rest := EncodeChar(cs[0]), cs[1..];
      var s := Encode(cs);
      CharShape(cs[0]);
      if i == 0 {
        assert cs[..0] == [] && |Encode(cs[..0])| == 0;
      } else if i < |e| {
        assert s[i] == e[i];
        forall k | 0 <= k <= |cs|
          ensures |Encode(cs[..k])| != i
        {
          if k > 0 { PrefixCons(cs, k); }
        }
      } else {
        BoundariesArePrefixes(rest, i - |e|);
        BoundaryShift(e, Encode(rest), i);
        FirstByte(rest);
        if k :| 0 <= k <= |rest| && |Encode(rest[..k])| == i - |e| {
          PrefixCons(cs, k + 1);
        }
        if k :| 0 <= k <= |cs| && |Encode(cs[..k])| == i {
          PrefixCons(cs, k);
        }
      }
    }
  }

  lemma PrefixCons(cs: seq<Scalar>, k: nat)
    requires 0 < k <= |cs|
    ensures Encode(cs[..k]) == EncodeChar(cs[0]) + Encode(cs[1..][..k - 1])
  {
    assert cs[..k][1..] == cs[1..][..k - 1];
  }

  lemma FirstByte(cs: seq<Scalar>)
    ensures cs != [] ==> Encode(cs) != [] && !IsContinuation(Encode(cs)[0])
  {
    if cs != [] { CharShape(cs[0]); }
  }

  lemma BoundaryShift(e: seq<Byte>, rest: seq<Byte>, i: nat)
    requires |e| <= i <= |e + rest|
    requires rest != [] ==> !IsContinuation(rest[0])
    ensures e != [] ==> (IsCharBoundary(e + rest, i) <==> IsCharBoundary(rest, i - |e|))
  {
  }

  /** The greedy prefix ends on a boundary, within the cap, fewer than four bytes short of it, and no later boundary
      is. */
  lemma {:induction false} LastBoundary(cs: seq<Scalar>, cap: nat) returns (cut: nat)
    requires |Encode(cs)| > cap
    ensures cut == |Encode(cs[..Fitting(cs, cap)])| && cut <= cap < cut + 4
    ensures cut <= |Encode(cs)| && IsCharBoundary(Encode(cs), cut)
    ensures forall j :: cut < j <= cap ==> !IsCharBoundary(Encode(cs), j)
    ensures Encode(cs)[..cut] == Encode(cs[..Fitting(cs, cap)])
    decreases |cs|
  {
    var e, rest, s := EncodeChar(cs[0]), cs[1..], Encode(cs);
    CharShape(cs[0]);
    if |e| > cap {
      cut := 0;
      assert cs[..0] == [];
      forall j | 0 < j <= cap
        ensures !IsCharBoundary(s, j)
      {
        assert s[j] == e[j];
      }
    } else {
      var inner := LastBoundary(rest, cap - |e|);
      cut := inner + |e|;
      PrefixCons(cs, Fitting(cs, cap));
      FirstByte(rest);
      BoundaryShift(e, Encode(rest), cut);
      forall j | cut < j <= cap
        ensures !IsCharBoundary(s, j)
      {
        BoundaryShift(e, Encode(rest), j);
      }
    }
  }

  /** The result is the longest prefix of whole characters that fits: any longer one does not. */
  lemma {:induction false} FittingIsLongest(cs: seq<Scalar>, cap: nat, k: nat)
    requires k <= |cs|
    ensures |Encode(cs[..k])| <= cap <==> k <= Fitting(cs, cap)
    decreases |cs|
  {
    if k == 0 {
      assert cs[..0] == [];
    } else {
      PrefixCons(cs, k);
      if |EncodeChar(cs[0])| <= cap { FittingIsLongest(cs[1..], cap - |EncodeChar(cs[0])|, k - 1); }
    }
  }
}
