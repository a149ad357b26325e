/** The delimiter finders of runtime/march_http_parse_simd.c, byte by byte and sixteen at a time. */
module HttpFind {
  type Byte = b: nat | b < 256

  const TAB: Byte := 9
  const LF: Byte := 10
  const CR: Byte := 13
  const SP: Byte := 32
  const COLON: Byte := 58

  /** The least index holding one of the wanted bytes, or the length if there is none. */
  function Find(s: seq<Byte>, want: set<Byte>): (r: nat)
    ensures r <= |s| && (r < |s| ==> s[r] in want)
    ensures forall i :: 0 <= i < r ==> s[i] !in want
  {
    if s == [] || s[0] in want then 0 else 1 + Find(s[1..], want)
  }

  /** Does a CRLF start at index i? */
  predicate CrlfAt(s: seq<Byte>, i: nat) {
    i + 1 < |s| && s[i] == CR && s[i + 1] == LF
  }

  /** The least index at which a CRLF starts, or the length if there is none. */
  function FindCrlf(s: seq<Byte>): (r: nat)
    ensures r <= |s| && (r < |s| ==> CrlfAt(s, r))
    ensures forall i: nat :: i < r ==> !CrlfAt(s, i)
  {
    if s == [] || CrlfAt(s, 0) then 0
    else
      var r := 1 + FindCrlf(s[1..]);
      assert forall i: nat :: 0 < i && CrlfAt(s, i) ==> CrlfAt(s[1..], i - 1);
      r
  }

  lemma FindIs(s: seq<Byte>, want: set<Byte>, r: nat)
    requires r <= |s| && (r < |s| ==> s[r] in want) && forall i :: 0 <= i < r ==> s[i] !in want
    ensures Find(s, want) == r
  {
  }

  lemma FindCrlfIs(s: seq<Byte>, r: nat)
    requires r <= |s| && (r < |s| ==> CrlfAt(s, r)) && forall i: nat :: i < r ==> !CrlfAt(s, i)
    ensures FindCrlf(s) == r
  {
  }

  /** What was found stays found, at the same place, when bytes are appended, and needs no byte
      past it. */
  lemma FindLocal(s: seq<Byte>, x: seq<Byte>, want: set<Byte>)
    ensures Find(s, want) < |s| ==> Find(s + x, want) == Find(s, want)
    ensures Find(s + x, want) < |s| ==> Find(s, want) == Find(s + x, want)
  {
    if Find(s, want) < |s| { FindIs(s + x, want, Find(s, want)); }
    if Find(s + x, want) < |s| { FindIs(s, want, Find(s + x, want)); }
  }

  lemma FindCrlfLocal(s: seq<Byte>, x: seq<Byte>)
    ensures FindCrlf(s) < |s| ==> FindCrlf(s + x) == FindCrlf(s)
    ensures FindCrlf(s + x) + 1 < |s| ==> FindCrlf(s) == FindCrlf(s + x)
  {
    var y := s + x;
    assert forall i: nat :: i + 1 < |s| ==> (CrlfAt(y, i) <==> CrlfAt(s, i));
    if FindCrlf(s) < |s| { FindCrlfIs(y, FindCrlf(s)); }
    if FindCrlf(y) + 1 < |s| {
      assert CrlfAt(y, FindCrlf(y));
      FindCrlfIs(s, FindCrlf(y));
    }
  }

  // ----- byte by byte

  /** scalar_find_ch and scalar_find_colon_or_cr. */
  method ScalarFind(s: seq<Byte>, want: set<Byte>) returns (r: nat)
    ensures r == Find(s, want)
  {
    r := 0;
    while r < |s|
      invariant r <= |s| && forall i :: 0 <= i < r ==> s[i] !in want
    {
      if s[r] in want { break; }
      r := r + 1;
    }
    FindIs(s, want, r);
  }

  /** scalar_find_crlf. */
  method ScalarFindCrlf(s: seq<Byte>) returns (r: nat)
    ensures r == FindCrlf(s)
  {
    if |s| < 2 {
      FindCrlfIs(s, |s|);
      return |s|;
    }
    var i := 0;
    while i + 1 < |s|
      invariant i < |s| && forall j: nat :: j < i ==> !CrlfAt(s, j)
    {
      if s[i] == CR && s[i + 1] == LF {
        FindCrlfIs(s, i);
        return i;
      }
      i := i + 1;
    }
    FindCrlfIs(s, |s|);
    return |s|;
  }

  // ----- sixteen bytes at a time

  const LANES := 16

  /** The string-compare instruction in equal-any, least-significant mode: the first lane equal to
      any of the delimiters, or 16. */
  function CompareAny(delims: seq<Byte>, chunk: seq<Byte>): (r: nat)
    requires |chunk| == LANES
    ensures r <= LANES && (r < LANES ==> chunk[r] in delims)
    ensures forall i :: 0 <= i < r ==> chunk[i] !in delims
  {
    Find(chunk, set d | d in delims)
  }

  /** simd_find_space, simd_find_cr and simd_find_colon_or_cr: whole chunks, then a scalar tail. */
  method SimdFind(s: seq<Byte>, delims: seq<Byte>) returns (r: nat)
    ensures r == Find(s, set d | d in delims)
  {
    ghost var want := set d | d in delims;
    var i := 0;
    while i + LANES <= |s|
      invariant i <= |s| && forall j :: 0 <= j < i ==> s[j] !in want
    {
      var chunk := s[i..i + LANES];
      var idx := CompareAny(delims, chunk);
      assert forall j :: i <= j < i + idx ==> s[j] == chunk[j - i];
      if idx < LANES {
        assert s[i + idx] == chunk[idx];
        FindIs(s, want, i + idx);
        return i + idx;
      }
      i := i + LANES;
    }
    while i < |s|
      invariant i <= |s| && forall j :: 0 <= j < i ==> s[j] !in want
    {
      if s[i] in delims { break; }
      i := i + 1;
    }
    FindIs(s, want, i);
    r := i;
  }

  /** find_crlf on the fast path: jump to the first CR, then walk to the first CRLF. */
  method SimdFindCrlf(s: seq<Byte>) returns (r: nat)
    ensures r == FindCrlf(s)
  {
    var cr := SimdFind(s, [CR, CR, CR, CR]);
    assert forall j: nat :: j < cr ==> !CrlfAt(s, j);
    if cr == |s| {
      FindCrlfIs(s, |s|);
      return |s|;
    }
    var i := cr;
    while i + 1 < |s|
      invariant cr <= i < |s| && forall j: nat :: j < i ==> !CrlfAt(s, j)
    {
      if s[i] == CR && s[i + 1] == LF {
        FindCrlfIs(s, i);
        return i;
      }
      i := i + 1;
    }
    FindCrlfIs(s, |s|);
    return |s|;
  }

  // ----- the dispatch wrappers: the same answer on either path

  method FindSpace(s: seq<Byte>, sse42: bool) returns (r: nat)
    ensures r == Find(s, {SP})
  {
    if sse42 {
      r := SimdFind(s, [SP, SP, SP, SP]);
      assert (set d | d in [SP, SP, SP, SP]) == {SP};
    } else {
      r := ScalarFind(s, {SP});
    }
  }

  method FindColonOrCr(s: seq<Byte>, sse42: bool) returns (r: nat)
    ensures r == Find(s, {COLON, CR})
  {
    if sse42 {
      r := SimdFind(s, [COLON, CR, COLON, CR]);
      assert (set d | d in [COLON, CR, COLON, CR]) == {COLON, CR};
    } else {
      r := ScalarFind(s, {COLON, CR});
    }
  }

  method FindLineEnd(s: seq<Byte>, sse42: bool) returns (r: nat)
    ensures r == FindCrlf(s)
  {
    if sse42 {
      r := SimdFindCrlf(s);
    } else {
      r := ScalarFindCrlf(s);
    }
  }
}
