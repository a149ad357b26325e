/** The UTF-8 validator of runtime/march_ffi.c against the encoder of runtime/march_extras.c.

    Bit tests and shifts are written as division and remainder by powers of two. */
module Utf8 {
  import opened Wrappers

  type Byte = b: nat | b < 256

  predicate Scalar(cp: int) {
    0 <= cp <= 0x10FFFF && !(0xD800 <= cp <= 0xDFFF)
  }

  /** march_codepoint_to_utf8. */
  function Encode(cp: int): (r: Option<seq<Byte>>)
    ensures r.Some? <==> Scalar(cp)
    ensures r.Some? ==> 1 <= |r.value| <= 4
  {
    if cp < 0 || cp > 0x10FFFF then None
    else if 0xD800 <= cp <= 0xDFFF then None
    else if cp <= 0x7F then Some([cp])
    else if cp <= 0x7FF then Some([0xC0 + cp / 64, 0x80 + cp % 64])
    else if cp <= 0xFFFF then Some([0xE0 + cp / 4096, 0x80 + cp / 64 % 64, 0x80 + cp % 64])
    else Some([0xF0 + cp / 262144, 0x80 + cp / 4096 % 64, 0x80 + cp / 64 % 64, 0x80 + cp % 64])
  }

  predicate AllScalar(cps: seq<int>) {
    forall i :: 0 <= i < |cps| ==> Scalar(cps[i])
  }

  function EncodeAll(cps: seq<int>): seq<Byte>
    requires AllScalar(cps)
  {
    if cps == [] then [] else Encode(cps[0]).value + EncodeAll(cps[1..])
  }

  // ----- the first character of a byte string

  /** What a leading byte announces: continuation count and the bits it contributes. */
  datatype Lead = Lead(n: nat, bits: nat)

  function LeadOf(c: Byte): (r: Option<Lead>)
    ensures r.Some? ==> r.value.n <= 3
  {
    if c < 0x80 then Some(Lead(0, c))
    else if c / 32 == 6 then Some(Lead(1, c % 32))
    else if c / 16 == 14 then Some(Lead(2, c % 16))
    else if c / 8 == 30 then Some(Lead(3, c % 8))
    else None
  }

  predicate Continuation(c: Byte) {
    c / 64 == 2
  }

  predicate Continuations(s: seq<Byte>) {
    forall k :: 0 <= k < |s| ==> Continuation(s[k])
  }

  /** Shift in the low six bits of each byte. */
  function Gather(cp: nat, s: seq<Byte>): nat {
    if s == [] then cp else Gather(cp, s[..|s| - 1]) * 64 + s[|s| - 1] % 64
  }

  /** Not overlong for its length, not out of range, not a surrogate. */
  predicate InRange(n: nat, cp: nat) {
    && !(n == 1 && cp < 0x80) && !(n == 2 && cp < 0x800) && !(n == 3 && cp < 0x10000)
    && cp <= 0x10FFFF && !(0xD800 <= cp <= 0xDFFF)
  }

  datatype Head = Head(cp: nat, len: nat)

  function DecodeHead(p: seq<Byte>): (r: Option<Head>)
    requires p != []
    ensures r.Some? ==> 1 <= r.value.len <= |p|
  {
    match LeadOf(p[0])
    case None => None
    case Some(Lead(n, bits)) =>
      if n == 0 then Some(Head(bits, 1))
      else if n >= |p| || !Continuations(p[1..n + 1]) then None
      else
        var cp := Gather(bits, p[1..n + 1]);
        if InRange(n, cp) then Some(Head(cp, n + 1)) else None
  }

  lemma Gather1(bits: nat, a: Byte)
    ensures Gather(bits, [a]) == bits * 64 + a % 64
  {
  }

  lemma Gather2(bits: nat, a: Byte, b: Byte)
    ensures Gather(bits, [a, b]) == (bits * 64 + a % 64) * 64 + b % 64
  {
    assert [a, b][..1] == [a];
    Gather1(bits, a);
  }

  lemma Gather3(bits: nat, a: Byte, b: Byte, c: Byte)
    ensures Gather(bits, [a, b, c]) == ((bits * 64 + a % 64) * 64 + b % 64) * 64 + c % 64
  {
    assert [a, b, c][..2] == [a, b];
    Gather2(bits, a, b);
  }

  /** The six-bit digits of a code point. */
  lemma Digits(cp: nat)
    ensures cp == cp / 64 * 64 + cp % 64
    ensures cp == (cp / 4096 * 64 + cp / 64 % 64) * 64 + cp % 64
    ensures cp == ((cp / 262144 * 64 + cp / 4096 % 64) * 64 + cp / 64 % 64) * 64 + cp % 64
  {
    assert cp / 4096 == cp / 64 / 64;
    assert cp / 262144 == cp / 64 / 64 / 64;
  }

  /** Adding a prefix that does not overlap the digit changes neither it nor what is left. */
  lemma Prefixed(d: nat)
    ensures d < 32 ==> (0xC0 + d) / 32 == 6 && (0xC0 + d) % 32 == d
    ensures d < 16 ==> (0xE0 + d) / 16 == 14 && (0xE0 + d) % 16 == d
    ensures d < 8 ==> (0xF0 + d) / 8 == 30 && (0xF0 + d) % 8 == d
    ensures d < 64 ==> (0x80 + d) / 64 == 2 && (0x80 + d) % 64 == d
  {
  }

  lemma EncodedDecodes2(cp: int, rest: seq<Byte>)
    requires 0x80 <= cp <= 0x7FF
    ensures var e := Encode(cp).value; DecodeHead(e + rest) == Some(Head(cp, |e|))
  {
    hide Gather;
    var d0, d1 := cp % 64, cp / 64;
    Prefixed(d0);
    Prefixed(d1);
    var p := [0xC0 + d1, 0x80 + d0] + rest;
    assert p[1..2] == [0x80 + d0];
    Gather1(d1, 0x80 + d0);
  }

  lemma DigitsDecode3(d2: nat, d1: nat, d0: nat, rest: seq<Byte>)
    requires d2 < 16 && d1 < 64 && d0 < 64 && InRange(2, (d2 * 64 + d1) * 64 + d0)
    ensures DecodeHead([0xE0 + d2, 0x80 + d1, 0x80 + d0] + rest) == Some(Head((d2 * 64 + d1) * 64 + d0, 3))
  {
    hide Gather;
    Prefixed(d0);
    Prefixed(d1);
    Prefixed(d2);
    var p := [0xE0 + d2, 0x80 + d1, 0x80 + d0] + rest;
    assert p[1..3] == [0x80 + d1, 0x80 + d0];
    Gather2(d2, 0x80 + d1, 0x80 + d0);
  }

  lemma EncodedDecodes3(cp: int, rest: seq<Byte>)
    requires 0x800 <= cp <= 0xFFFF && Scalar(cp)
    ensures var e := Encode(cp).value; DecodeHead(e + rest) == Some(Head(cp, |e|))
  {
    hide DecodeHead;
    Digits(cp);
    DigitsDecode3(cp / 4096, cp / 64 % 64, cp % 64, rest);
  }

  lemma DigitsDecode4(d3: nat, d2: nat, d1: nat, d0: nat, rest: seq<Byte>)
    requires d3 < 8 && d2 < 64 && d1 < 64 && d0 < 64 && InRange(3, ((d3 * 64 + d2) * 64 + d1) * 64 + d0)
    ensures DecodeHead([0xF0 + d3, 0x80 + d2, 0x80 + d1, 0x80 + d0] + rest)
         == Some(Head(((d3 * 64 + d2) * 64 + d1) * 64 + d0, 4))
  {
    hide Gather;
    Prefixed(d0);
    Prefixed(d1);
    Prefixed(d2);
    Prefixed(d3);
    var p := [0xF0 + d3, 0x80 + d2, 0x80 + d1, 0x80 + d0] + rest;
    assert p[1..4] == [0x80 + d2, 0x80 + d1, 0x80 + d0];
    Gather3(d3, 0x80 + d2, 0x80 + d1, 0x80 + d0);
  }

  lemma EncodedDecodes4(cp: int, rest: seq<Byte>)
    requires 0x10000 <= cp <= 0x10FFFF
    ensures var e := Encode(cp).value; DecodeHead(e + rest) == Some(Head(cp, |e|))
  {
    hide DecodeHead;
    Digits(cp);
    DigitsDecode4(cp / 262144, cp / 4096 % 64, cp / 64 % 64, cp % 64, rest);
  }

  /** Decoding undoes encoding, whatever follows. */
  lemma EncodedDecodes(cp: int, rest: seq<Byte>)
    requires Scalar(cp)
    ensures var e := Encode(cp).value; DecodeHead(e + rest) == Some(Head(cp, |e|))
  {
    if cp > 0xFFFF {
      EncodedDecodes4(cp, rest);
    } else if cp > 0x7FF {
      EncodedDecodes3(cp, rest);
    } else if cp > 0x7F {
      EncodedDecodes2(cp, rest);
    }
  }

  /** The digits of a number are those it was put together from. */
  lemma Undigit(a: nat, b: nat, c: nat, d: nat)
    requires b < 64 && c < 64 && d < 64
    ensures var cp := ((a * 64 + b) * 64 + c) * 64 + d;
            cp % 64 == d && cp / 64 % 64 == c && cp / 4096 % 64 == b && cp / 262144 == a
            && cp / 64 == (a * 64 + b) * 64 + c && cp / 4096 == a * 64 + b
  {
  }

  lemma DecodedEncodes2(x: Byte, y: Byte)
    requires x / 32 == 6 && Continuation(y)
    ensures var cp := x % 32 * 64 + y % 64; InRange(1, cp) ==> Encode(cp) == Some([x, y])
  {
  }

  lemma DecodedEncodes3(x: Byte, y: Byte, z: Byte)
    requires x / 16 == 14 && Continuation(y) && Continuation(z)
    ensures var cp := (x % 16 * 64 + y % 64) * 64 + z % 64; InRange(2, cp) ==> Encode(cp) == Some([x, y, z])
  {
  }

  lemma DecodedEncodes4(x: Byte, y: Byte, z: Byte, w: Byte)
    requires x / 8 == 30 && Continuation(y) && Continuation(z) && Continuation(w)
    ensures var cp := ((x % 8 * 64 + y % 64) * 64 + z % 64) * 64 + w % 64;
            InRange(3, cp) ==> Encode(cp) == Some([x, y, z, w])
  {
    Undigit(x % 8, y % 64, z % 64, w % 64);
  }

  /** What the decoder accepts is the encoding of a scalar value. */
  lemma DecodedEncodes(p: seq<Byte>)
    requires p != [] && DecodeHead(p).Some?
    ensures var h := DecodeHead(p).value; Encode(h.cp) == Some(p[..h.len])
  {
    hide Encode, InRange, Continuation, Gather;
    var l := LeadOf(p[0]).value;
    if l.n == 0 {
      assert p[..1] == [p[0]];
      EncodeAscii(p[0]);
    } else if l.n == 1 {
      var s := p[1..2];
      assert s == [p[1]] && s[0] == p[1] && p[..2] == [p[0], p[1]];
      Gather1(l.bits, p[1]);
      DecodedEncodes2(p[0], p[1]);
    } else if l.n == 2 {
      var s := p[1..3];
      assert s == [p[1], p[2]] && s[0] == p[1] && s[1] == p[2] && p[..3] == [p[0], p[1], p[2]];
      Gather2(l.bits, p[1], p[2]);
      DecodedEncodes3(p[0], p[1], p[2]);
    } else {
      var s := p[1..4];
      assert s == [p[1], p[2], p[3]] && s[0] == p[1] && s[1] == p[2] && s[2] == p[3];
      assert p[..4] == [p[0], p[1], p[2], p[3]];
      Gather3(l.bits, p[1], p[2], p[3]);
      DecodedEncodes4(p[0], p[1], p[2], p[3]);
    }
  }

  lemma EncodeAscii(c: Byte)
    requires c < 0x80
    ensures Encode(c) == Some([c])
  {
  }

  // ----- whole strings

  predicate Valid(p: seq<Byte>) {
    p == [] || (DecodeHead(p).Some? && Valid(p[DecodeHead(p).value.len..]))
  }

  /** The code points of a valid string. */
  function DecodeAll(p: seq<Byte>): seq<int>
    requires Valid(p)
  {
    if p == [] then [] else [DecodeHead(p).value.cp] + DecodeAll(p[DecodeHead(p).value.len..])
  }

  lemma {:induction false} EncodedIsValid(cps: seq<int>)
    requires AllScalar(cps)
    ensures Valid(EncodeAll(cps)) && DecodeAll(EncodeAll(cps)) == cps
  {
    if cps != [] {
      var e, rest := Encode(cps[0]).value, EncodeAll(cps[1..]);
      EncodedIsValid(cps[1..]);
      EncodedDecodes(cps[0], rest);
      assert (e + rest)[|e|..] == rest;
    }
  }

  lemma EncodeCons(cp: int, cps: seq<int>)
    requires Scalar(cp) && AllScalar(cps)
    ensures AllScalar([cp] + cps) && EncodeAll([cp] + cps) == Encode(cp).value + EncodeAll(cps)
  {
  }

  lemma {:induction false} ValidIsEncoded(p: seq<Byte>)
    requires Valid(p)
    ensures AllScalar(DecodeAll(p)) && EncodeAll(DecodeAll(p)) == p
  {
    hide DecodeHead, Encode, LeadOf, Gather, Scalar;
    if p != [] {
      hide EncodeAll, AllScalar;
      var h := DecodeHead(p).value;
      var rest := p[h.len..];
      assert Valid(rest) && DecodeAll(p) == [h.cp] + DecodeAll(rest);
      hide Valid, DecodeAll;
      DecodedEncodes(p);
      ValidIsEncoded(rest);
      EncodeCons(h.cp, DecodeAll(rest));
      assert p == p[..h.len] + rest;
    }
  }

  /** At most one sequence of scalar values encodes to a given byte string. */
  lemma DecompositionUnique(a: seq<int>, b: seq<int>)
    requires AllScalar(a) && AllScalar(b) && EncodeAll(a) == EncodeAll(b)
    ensures a == b
  {
    EncodedIsValid(a);
    EncodedIsValid(b);
  }

  /** A string is valid exactly when it is a concatenation of encodings. */
  lemma ValidExactly(p: seq<Byte>)
    ensures Valid(p) <==> exists cps :: AllScalar(cps) && EncodeAll(cps) == p
  {
    if Valid(p) { ValidIsEncoded(p); }
    if cps :| AllScalar(cps) && EncodeAll(cps) == p { EncodedIsValid(cps); }
  }

  // ----- the loop

  /** The continuation loop: the accumulated code point, or failure at a bad byte. */
  method Accumulate(p: seq<Byte>, i: nat, n: nat, bits: nat) returns (ok: bool, cp: nat)
    requires i + n < |p|
    ensures ok <==> Continuations(p[i + 1..i + n + 1])
    ensures ok ==> cp == Gather(bits, p[i + 1..i + n + 1])
  {
    cp := bits;
    var k := 1;
    while k <= n
      invariant 1 <= k <= n + 1
      invariant Continuations(p[i + 1..i + k]) && cp == Gather(bits, p[i + 1..i + k])
    {
      var cc := p[i + k];
      if !Continuation(cc) {
        assert p[i + 1..i + n + 1][k - 1] == cc;
        return false, cp;
      }
      cp := cp * 64 + cc % 64;
      assert p[i + 1..i + k + 1] == p[i + 1..i + k] + [cc];
      assert p[i + 1..i + k + 1][..k - 1] == p[i + 1..i + k];
      k := k + 1;
    }
    ok := true;
  }

  /** The body of the loop: the bytes of the character at i, or a rejection. */
  method CheckHead(p: seq<Byte>, i: nat) returns (ok: bool, len: nat)
    requires i < |p|
    ensures ok <==> DecodeHead(p[i..]).Some?
    ensures ok ==> len == DecodeHead(p[i..]).value.len
  {
    hide Gather;
    ghost var rest := p[i..];
    var lead := LeadOf(p[i]);
    if lead.None? { return false, 0; }
    var n := lead.value.n;
    if n == 0 { return true, 1; }
    if i + n >= |p| { return false, 0; }
    assert rest[1..n + 1] == p[i + 1..i + n + 1];
    var good, cp := Accumulate(p, i, n, lead.value.bits);
    if !good { return false, 0; }
    if n == 1 && cp < 0x80 { return false, 0; }
    if n == 2 && cp < 0x800 { return false, 0; }
    if n == 3 && cp < 0x10000 { return false, 0; }
    if cp > 0x10FFFF { return false, 0; }
    if 0xD800 <= cp <= 0xDFFF { return false, 0; }
    return true, n + 1;
  }

  /** march_utf8_valid: accepts exactly the concatenations of encodings of scalar values. */
  method Utf8Valid(p: seq<Byte>) returns (ok: bool)
    ensures ok <==> exists cps :: AllScalar(cps) && EncodeAll(cps) == p
  {
    hide DecodeHead, EncodeAll, AllScalar;
    ValidExactly(p);
    var i := 0;
    assert p[0..] == p;
    while i < |p|
      invariant 0 <= i <= |p| && (Valid(p) <==> Valid(p[i..]))
    {
      var good, n := CheckHead(p, i);
      if !good { return false; }
      assert p[i..][n..] == p[i + n..];
      i := i + n;
    }
    assert p[i..] == [];
    ok := true;
  }
}
