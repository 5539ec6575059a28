/** Cutting a text at a byte offset without splitting a character, over the UTF-8 encoding of section 3 of RFC 3629. */
module Utf8Boundary {

  type Byte = b: nat | b < 0x100

  /** One to four bytes, by the size of the code point. */
  function EncodeScalar(c: char): (r: seq<Byte>)
    ensures 1 <= |r| <= 4
    ensures !IsContinuation(r[0]) && forall i :: 1 <= i < |r| ==> IsContinuation(r[i])
  {
    var n := c as int;
    if n < 0x80 then [n]
    else if n < 0x800 then [0xC0 + n / 0x40, 0x80 + n % 0x40]
    else if n < 0x1_0000 then [0xE0 + n / 0x1000, 0x80 + n / 0x40 % 0x40, 0x80 + n % 0x40]
    else [0xF0 + n / 0x4_0000, 0x80 + n / 0x1000 % 0x40, 0x80 + n / 0x40 % 0x40, 0x80 + n % 0x40]
  }

  /** The payload of a continuation. */
  function Low(b: Byte): int
  {
    b as int - 0x80
  }

  /** The bytes spell the code point, six bits in each continuation, and no shorter form would do. */
  lemma EncodedReads(c: char)
    ensures var n, r := c as int, EncodeScalar(c);
            && (|r| == 1 <==> n < 0x80) && (|r| == 2 <==> 0x80 <= n < 0x800) && (|r| == 3 <==> 0x800 <= n < 0x1_0000)
            && (|r| == 1 ==> r[0] == n)
            && (|r| == 2 ==> n == (r[0] as int - 0xC0) * 0x40 + Low(r[1]))
            && (|r| == 3 ==> n == (r[0] as int - 0xE0) * 0x1000 + Low(r[1]) * 0x40 + Low(r[2]))
            && (|r| == 4 ==> n == (r[0] as int - 0xF0) * 0x4_0000 + Low(r[1]) * 0x1000 + Low(r[2]) * 0x40 + Low(r[3]))
  {
    Sixes(c as int);
    Sixes(c as int / 0x40);
  }

  /** Taking six bits off twice. */
  lemma Sixes(n: nat)
    ensures n == n / 0x40 * 0x40 + n % 0x40 && n / 0x40 / 0x40 == n / 0x1000 && n / 0x40 / 0x1000 == n / 0x4_0000
    ensures n / 0x40 == n / 0x1000 * 0x40 + n / 0x40 % 0x40
  {
    var q, r := n / 0x40, n % 0x40;
    var p, s := q / 0x40, q % 0x40;
    assert n == p * 0x1000 + s * 0x40 + r;
    var o, t := q / 0x1000, q % 0x1000;
    assert n == o * 0x4_0000 + t * 0x40 + r;
  }

  predicate IsContinuation(b: Byte)
  {
    0x80 <= b < 0xC0
  }

  function Utf8(s: string): seq<Byte>
  {
    if s == "" then [] else EncodeScalar(s[0]) + Utf8(s[1..])
  }

  /** Both ends, and every byte that does not continue a character. */
  predicate IsCharBoundary(bytes: seq<Byte>, i: int)
  {
    i == 0 || i == |bytes| || (0 <= i < |bytes| && !IsContinuation(bytes[i]))
  }

  /** Offset `i` lies behind the first `k` characters. */
  ghost predicate EndsCharacter(s: string, i: int, k: int)
  {
    0 <= k <= |s| && i == |Utf8(s[..k])|
  }

  ghost predicate AtCharacterEnd(s: string, i: int)
  {
    exists k :: EndsCharacter(s, i, k)
  }

  lemma FrontLength(s: string, k: nat)
    requires s != "" && k < |s|
    ensures |Utf8(s[..k + 1])| == |EncodeScalar(s[0])| + |Utf8(s[1..][..k])|
  {
    assert s[..k + 1][1..] == s[1..][..k];
  }

  /** The boundaries are exactly the ends of leading characters. */
  lemma {:induction false} BoundariesExact(s: string, i: nat)
    ensures i <= |Utf8(s)| && IsCharBoundary(Utf8(s), i) <==> AtCharacterEnd(s, i)
    decreases |s|
  {
    hide EncodeScalar;
    assert s[..0] == "";
    if i == 0 {
      assert EndsCharacter(s, i, 0);
    } else if s != "" {
      var n := |EncodeScalar(s[0])|;
      if i < n {
        InFirst(s, i);
      } else {
        BoundariesExact(s[1..], i - n);
        ShiftBoundary(s, i);
        EndsShift(s, i);
      }
    }
  }

  lemma EndsShift(s: string, i: nat)
    requires s != "" && i >= |EncodeScalar(s[0])|
    ensures AtCharacterEnd(s, i) <==> AtCharacterEnd(s[1..], i - |EncodeScalar(s[0])|)
  {
    hide EncodeScalar;
    var n := |EncodeScalar(s[0])|;
    assert s[..0] == "";
    if AtCharacterEnd(s[1..], i - n) {
      var k :| EndsCharacter(s[1..], i - n, k);
      FrontLength(s, k);
      assert EndsCharacter(s, i, k + 1);
    }
    if AtCharacterEnd(s, i) {
      var k :| EndsCharacter(s, i, k);
      FrontLength(s, k - 1);
      assert EndsCharacter(s[1..], i - n, k - 1);
    }
  }

  lemma InFirst(s: string, i: nat)
    requires s != "" && 0 < i < |EncodeScalar(s[0])|
    ensures !IsCharBoundary(Utf8(s), i)
    ensures !AtCharacterEnd(s, i)
  {
    hide EncodeScalar;
    assert Utf8(s)[i] == EncodeScalar(s[0])[i];
    assert s[..0] == "";
    forall k
      ensures !EndsCharacter(s, i, k)
    {
      if 0 < k <= |s| {
        FrontLength(s, k - 1);
      }
    }
  }

  lemma ShiftBoundary(s: string, i: nat)
    requires s != "" && i >= |EncodeScalar(s[0])|
    ensures var n := |EncodeScalar(s[0])|;
            i <= |Utf8(s)| && IsCharBoundary(Utf8(s), i) <==> i - n <= |Utf8(s[1..])| && IsCharBoundary(Utf8(s[1..]), i - n)
  {
    hide EncodeScalar;
    var n := |EncodeScalar(s[0])|;
    StartsCharacter(s[1..]);
    if i < |Utf8(s)| {
      assert Utf8(s)[i] == Utf8(s[1..])[i - n];
    }
  }

  lemma StartsCharacter(s: string)
    ensures Utf8(s) != [] ==> !IsContinuation(Utf8(s)[0])
  {
    hide EncodeScalar;
    if s != "" {
      assert Utf8(s)[0] == EncodeScalar(s[0])[0];
    }
  }

  function Min(a: nat, b: nat): nat
  {
    if a < b then a else b
  }

  /** The result ends the longest run of whole characters that fits, and gives up at most three bytes. */
  method FloorCharBoundary(s: string, byteIdx: nat) returns (i: nat)
    ensures AtCharacterEnd(s, i) && i <= byteIdx
    ensures forall j :: AtCharacterEnd(s, j) && j <= byteIdx ==> j <= i
    ensures Min(byteIdx, |Utf8(s)|) - i <= 3
  {
    hide Utf8, AtCharacterEnd, IsCharBoundary;
    var bytes := Utf8(s);
    var start := Min(byteIdx, |bytes|);
    i := start;
    while i > 0 && !IsCharBoundary(bytes, i)
      invariant i <= start
      invariant forall j :: i < j <= start ==> !IsCharBoundary(bytes, j)
    {
      i := i - 1;
    }
    ZeroIsBoundary(bytes);
    BoundariesExact(s, i);
    forall j | AtCharacterEnd(s, j) && j <= byteIdx
      ensures j <= i
    {
      EndsIsNat(s, j);
      BoundariesExact(s, j);
    }
    NearBoundary(s, start, i);
  }

  lemma EndsIsNat(s: string, j: int)
    requires AtCharacterEnd(s, j)
    ensures j >= 0
  {
  }

  lemma ZeroIsBoundary(bytes: seq<Byte>)
    ensures IsCharBoundary(bytes, 0)
  {
  }

  /** No four bytes in a row continue characters. */
  lemma {:induction false} NearBoundary(s: string, start: nat, i: nat)
    requires i <= start <= |Utf8(s)| && forall j :: i < j <= start ==> !IsCharBoundary(Utf8(s), j)
    requires IsCharBoundary(Utf8(s), i)
    ensures start - i <= 3
    decreases |s|
  {
    hide EncodeScalar, IsCharBoundary;
    if s != "" && start > i {
      var n := |EncodeScalar(s[0])|;
      if i >= n {
        forall j | i - n < j <= start - n
          ensures !IsCharBoundary(Utf8(s[1..]), j)
        {
          ShiftBoundary(s, j + n);
          assert !IsCharBoundary(Utf8(s), j + n);
        }
        ShiftBoundary(s, i);
        NearBoundary(s[1..], start - n, i - n);
      } else {
        if i > 0 {
          InFirst(s, i);
        }
        EndOfFirst(s);
      }
    }
  }

  lemma EndOfFirst(s: string)
    requires s != ""
    ensures IsCharBoundary(Utf8(s), |EncodeScalar(s[0])|)
  {
    hide EncodeScalar;
    ShiftBoundary(s, |EncodeScalar(s[0])|);
  }
}
