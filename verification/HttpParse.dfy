/** The HTTP/1.x request parser of runtime/march_http_parse_simd.c.

    A parsed request holds the bytes of its slices, so that results of parsing different buffers
    can be compared. */
module HttpParse {
  import opened HttpFind
  import opened Wrappers

  const MAX_HEADERS := 64

  datatype Header = Header(name: seq<Byte>, value: seq<Byte>)
  datatype Request = Request(verb: seq<Byte>, path: seq<Byte>, minor: nat, headers: seq<Header>)

  /** The three outcomes of every stage: -1, 0, or a value with the bytes it took. */
  datatype Outcome<+T> = Malformed | Incomplete | Done(value: T, used: nat)

  // ----- the grammar, one stage at a time

  predicate MethodByte(c: Byte) {
    65 <= c <= 90 || 97 <= c <= 122 || c == 95 || c == 45
  }

  predicate ValidMethod(m: seq<Byte>) {
    0 < |m| <= 16 && forall i :: 0 <= i < |m| ==> MethodByte(m[i])
  }

  datatype Line = Line(verb: seq<Byte>, path: seq<Byte>, minor: nat)

  /** Eight version bytes and a CRLF. */
  function ParseVersion(s: seq<Byte>): (r: Outcome<nat>)
    ensures r.Done? ==> r.used == 10 <= |s|
  {
    if |s| < 8 then Incomplete
    else if s[..7] != [72, 84, 84, 80, 47, 49, 46] then Malformed
    else if s[7] != 48 && s[7] != 49 then Malformed
    else if |s| < 10 then Incomplete
    else if s[8] != CR || s[9] != LF then Malformed
    else Done(s[7] - 48, 10)
  }

  function ParsePath(s: seq<Byte>): (r: Outcome<seq<Byte>>)
    ensures r.Done? ==> 0 < r.used <= |s|
  {
    var sp := Find(s, {SP});
    if sp == |s| then Incomplete else if sp == 0 then Malformed else Done(s[..sp], sp + 1)
  }

  function ParseMethod(s: seq<Byte>): (r: Outcome<seq<Byte>>)
    ensures r.Done? ==> 0 < r.used <= |s|
  {
    var sp := Find(s, {SP});
    if sp == |s| then Incomplete else if !ValidMethod(s[..sp]) then Malformed else Done(s[..sp], sp + 1)
  }

  predicate Blank(c: Byte) {
    c == SP || c == TAB
  }

  /** Leading blanks to skip. */
  function Lead(s: seq<Byte>): (r: nat)
    ensures r <= |s| && (forall i :: 0 <= i < r ==> Blank(s[i])) && (r < |s| ==> !Blank(s[r]))
  {
    if s == [] || !Blank(s[0]) then 0 else 1 + Lead(s[1..])
  }

  /** s without its trailing blanks. */
  function Trim(s: seq<Byte>): (r: seq<Byte>)
    ensures r <= s && (forall i :: |r| <= i < |s| ==> Blank(s[i])) && (r != [] ==> !Blank(r[|r| - 1]))
  {
    if s == [] || !Blank(s[|s| - 1]) then s else Trim(s[..|s| - 1])
  }

  /** A header value: blanks, the text, CRLF. */
  function ParseValue(s: seq<Byte>): (r: Outcome<seq<Byte>>)
    ensures r.Done? ==> 0 < r.used <= |s|
  {
    var t := s[Lead(s)..];
    var e := FindCrlf(t);
    if e == |t| then Incomplete else Done(Trim(t[..e]), Lead(s) + e + 2)
  }

  function ParseHeader(s: seq<Byte>): (r: Outcome<Header>)
    ensures r.Done? ==> 0 < r.used <= |s|
  {
    var c := Find(s, {COLON, CR});
    if c == |s| then Incomplete
    else if s[c] == CR || c == 0 then Malformed
    else
      match ParseValue(s[c + 1..])
      case Done(value, used) => Done(Header(s[..c], value), c + 1 + used)
      case _ => Incomplete
  }

  /** The header lines, given how many have gone before, up to and with the blank line. */
  function ParseHeaders(s: seq<Byte>, before: nat): (r: Outcome<seq<Header>>)
    ensures r.Done? ==> 0 < r.used <= |s|
    decreases |s|
  {
    if |s| < 2 then Incomplete
    else if s[0] == CR && s[1] == LF then Done([], 2)
    else if before >= MAX_HEADERS then Malformed
    else
      match ParseHeader(s)
      case Malformed => Malformed
      case Incomplete => Incomplete
      case Done(h, n) => Then(h, n, ParseHeaders(s[n..], before + 1))
  }

  function Then(h: Header, n: nat, rest: Outcome<seq<Header>>): Outcome<seq<Header>> {
    match rest
    case Malformed => Malformed
    case Incomplete => Incomplete
    case Done(hs, m) => Done([h] + hs, n + m)
  }

  function ParseLine(s: seq<Byte>): (r: Outcome<Line>)
    ensures r.Done? ==> 0 < r.used <= |s|
  {
    match ParseMethod(s)
    case Malformed => Malformed
    case Incomplete => Incomplete
    case Done(verb, a) => AfterMethod(verb, a, s[a..])
  }

  function AfterMethod(verb: seq<Byte>, a: nat, s: seq<Byte>): (r: Outcome<Line>)
    ensures r.Done? ==> a <= r.used <= a + |s|
  {
    match ParsePath(s)
    case Malformed => Malformed
    case Incomplete => Incomplete
    case Done(path, b) => AfterPath(verb, path, a + b, s[b..])
  }

  function AfterPath(verb: seq<Byte>, path: seq<Byte>, at: nat, s: seq<Byte>): (r: Outcome<Line>)
    ensures r.Done? ==> at <= r.used <= at + |s|
  {
    match ParseVersion(s)
    case Malformed => Malformed
    case Incomplete => Incomplete
    case Done(minor, n) => Done(Line(verb, path, minor), at + n)
  }

  /** march_http_parse_request_simd, on an empty buffer an error. */
  function ParseRequest(s: seq<Byte>): (r: Outcome<Request>)
    ensures r.Done? ==> 0 < r.used <= |s|
  {
    if s == [] then Malformed
    else
      match ParseLine(s)
      case Malformed => Malformed
      case Incomplete => Incomplete
      case Done(line, n) => AfterLine(line, n, s[n..])
  }

  function AfterLine(line: Line, n: nat, s: seq<Byte>): (r: Outcome<Request>)
    ensures r.Done? ==> n < r.used <= n + |s|
  {
    match ParseHeaders(s, 0)
    case Malformed => Malformed
    case Incomplete => Incomplete
    case Done(hs, m) => Done(Request(line.verb, line.path, line.minor, hs), n + m)
  }

  // ----- a stage is settled by the bytes it has used

  /** r: the outcome on a buffer of m bytes; r': the outcome on an extension of it. */
  predicate Settled<T(==)>(m: nat, r: Outcome<T>, r': Outcome<T>) {
    && (!r.Incomplete? ==> r' == r)
    && (r'.Done? && r'.used <= m ==> r == r')
  }

  lemma PathSettled(s: seq<Byte>, x: seq<Byte>)
    ensures Settled(|s|, ParsePath(s), ParsePath(s + x))
  {
    FindLocal(s, x, {SP});
    var sp := Find(s + x, {SP});
    if sp < |s| { assert (s + x)[..sp] == s[..sp]; }
  }

  lemma MethodSettled(s: seq<Byte>, x: seq<Byte>)
    ensures Settled(|s|, ParseMethod(s), ParseMethod(s + x))
  {
    FindLocal(s, x, {SP});
    var sp := Find(s + x, {SP});
    if sp < |s| { assert (s + x)[..sp] == s[..sp]; }
  }

  lemma LeadIs(s: seq<Byte>, r: nat)
    requires r <= |s| && (forall i :: 0 <= i < r ==> Blank(s[i])) && (r < |s| ==> !Blank(s[r]))
    ensures Lead(s) == r
  {
  }

  lemma ValueSettled(s: seq<Byte>, x: seq<Byte>)
    ensures Settled(|s|, ParseValue(s), ParseValue(s + x))
  {
    var l := Lead(s);
    if l < |s| {
      LeadIs(s + x, l);
      var t := s[l..];
      assert (s + x)[l..] == t + x;
      FindCrlfLocal(t, x);
      var e := FindCrlf(t + x);
      if e + 1 < |t| { assert (t + x)[..e] == t[..e]; }
      if FindCrlf(t) < |t| { assert CrlfAt(t, FindCrlf(t)); }
      if e < |t + x| { assert CrlfAt(t + x, e); }
    } else {
      assert ParseValue(s).Incomplete?;
      ValueNeedsText(s, x);
    }
  }

  lemma ValueNeedsText(s: seq<Byte>, x: seq<Byte>)
    requires Lead(s) == |s|
    ensures ParseValue(s + x).Done? ==> ParseValue(s + x).used > |s|
  {
  }

  lemma HeaderSettled(s: seq<Byte>, x: seq<Byte>)
    ensures Settled(|s|, ParseHeader(s), ParseHeader(s + x))
  {
    hide ParseValue, Find;
    FindLocal(s, x, {COLON, CR});
    var c := Find(s + x, {COLON, CR});
    if c < |s| {
      assert (s + x)[..c] == s[..c];
      assert (s + x)[c + 1..] == s[c + 1..] + x;
      ValueSettled(s[c + 1..], x);
    }
  }

  lemma {:induction false} HeadersSettled(s: seq<Byte>, x: seq<Byte>, before: nat)
    ensures Settled(|s|, ParseHeaders(s, before), ParseHeaders(s + x, before))
    decreases |s|
  {
    hide ParseHeader;
    if |s| >= 2 && !(s[0] == CR && s[1] == LF) && before < MAX_HEADERS {
      HeaderSettled(s, x);
      var h := ParseHeader(s);
      if h.Done? {
        assert (s + x)[h.used..] == s[h.used..] + x;
        HeadersSettled(s[h.used..], x, before + 1);
      }
    }
  }

  lemma AfterPathSettled(verb: seq<Byte>, path: seq<Byte>, at: nat, s: seq<Byte>, x: seq<Byte>)
    ensures Settled(at + |s|, AfterPath(verb, path, at, s), AfterPath(verb, path, at, s + x))
  {
  }

  lemma AfterMethodSettled(verb: seq<Byte>, a: nat, s: seq<Byte>, x: seq<Byte>)
    ensures Settled(a + |s|, AfterMethod(verb, a, s), AfterMethod(verb, a, s + x))
  {
    hide ParsePath, AfterPath;
    PathSettled(s, x);
    var p := ParsePath(s);
    if p.Done? {
      assert (s + x)[p.used..] == s[p.used..] + x;
      AfterPathSettled(verb, p.value, a + p.used, s[p.used..], x);
    }
  }

  lemma LineSettled(s: seq<Byte>, x: seq<Byte>)
    ensures Settled(|s|, ParseLine(s), ParseLine(s + x))
  {
    hide ParseMethod, AfterMethod;
    MethodSettled(s, x);
    var p := ParseMethod(s);
    if p.Done? {
      assert (s + x)[p.used..] == s[p.used..] + x;
      AfterMethodSettled(p.value, p.used, s[p.used..], x);
    }
  }

  lemma AfterLineSettled(line: Line, n: nat, s: seq<Byte>, x: seq<Byte>)
    ensures Settled(n + |s|, AfterLine(line, n, s), AfterLine(line, n, s + x))
  {
    hide ParseHeaders;
    HeadersSettled(s, x, 0);
  }

  /** A non-empty buffer that parsed, or was refused, gives the same answer whatever bytes follow;
      and a request that ends within the buffer is found without looking past it. */
  lemma RequestSettled(s: seq<Byte>, x: seq<Byte>)
    requires s != []
    ensures Settled(|s|, ParseRequest(s), ParseRequest(s + x))
  {
    hide ParseLine, AfterLine;
    LineSettled(s, x);
    var p := ParseLine(s);
    if p.Done? {
      assert (s + x)[p.used..] == s[p.used..] + x;
      AfterLineSettled(p.value, p.used, s[p.used..], x);
    }
  }

  // ----- a request written out is read back

  function WriteHeaders(hs: seq<Header>): seq<Byte> {
    if hs == [] then [CR, LF] else WriteHeader(hs[0]) + WriteHeaders(hs[1..])
  }

  function WriteHeader(h: Header): seq<Byte> {
    h.name + [COLON, SP] + h.value + [CR, LF]
  }

  function WriteLine(r: Request): seq<Byte> {
    r.verb + [SP] + r.path + [SP] + Version(r.minor)
  }

  function Write(r: Request): seq<Byte> {
    WriteLine(r) + WriteHeaders(r.headers)
  }

  /** A value without line ends or outer blanks, under a non-empty name without a delimiter. */
  ghost predicate Writable(h: Header) {
    && h.name != [] && COLON !in h.name && CR !in h.name
    && (forall i: nat :: !CrlfAt(h.value, i))
    && (h.value != [] ==> !Blank(h.value[0]) && !Blank(h.value[|h.value| - 1]))
  }

  ghost predicate WellFormed(r: Request) {
    && ValidMethod(r.verb) && r.path != [] && SP !in r.path && r.minor <= 1
    && |r.headers| <= MAX_HEADERS && forall i :: 0 <= i < |r.headers| ==> Writable(r.headers[i])
  }

  lemma ValueReads(value: seq<Byte>, rest: seq<Byte>)
    requires forall i: nat :: !CrlfAt(value, i)
    requires value != [] ==> !Blank(value[0]) && !Blank(value[|value| - 1])
    ensures ParseValue([SP] + value + [CR, LF] + rest) == Done(value, |value| + 3)
  {
    var s := [SP] + value + [CR, LF] + rest;
    LeadIs(s, 1);
    var t := s[1..];
    assert t == value + [CR, LF] + rest;
    forall i: nat | i < |value|
      ensures !CrlfAt(t, i)
    {
      assert i + 1 < |value| ==> !CrlfAt(value, i);
    }
    FindCrlfIs(t, |value|);
    assert t[..|value|] == value;
    TrimIs(value, |value|);
    assert value[..|value|] == value;
  }

  lemma HeaderReads(h: Header, rest: seq<Byte>)
    requires Writable(h)
    ensures ParseHeader(WriteHeader(h) + rest) == Done(h, |WriteHeader(h)|)
  {
    hide ParseValue;
    var s := WriteHeader(h) + rest;
    var c := |h.name|;
    FindIs(s, {COLON, CR}, c);
    assert s[..c] == h.name;
    assert s[c + 1..] == [SP] + h.value + [CR, LF] + rest;
    ValueReads(h.value, rest);
  }

  lemma {:induction false} HeadersRead(hs: seq<Header>, before: nat, rest: seq<Byte>)
    requires before + |hs| <= MAX_HEADERS && forall i :: 0 <= i < |hs| ==> Writable(hs[i])
    ensures ParseHeaders(WriteHeaders(hs) + rest, before) == Done(hs, |WriteHeaders(hs)|)
    decreases |hs|
  {
    hide ParseHeader;
    var s := WriteHeaders(hs) + rest;
    if hs != [] {
      var h, tail := hs[0], WriteHeaders(hs[1..]);
      assert s == WriteHeader(h) + (tail + rest);
      HeaderReads(h, tail + rest);
      assert s[|WriteHeader(h)|..] == tail + rest;
      HeadersRead(hs[1..], before + 1, rest);
      assert s[0] == h.name[0];
      assert [h] + hs[1..] == hs;
    }
  }

  lemma VersionReads(minor: nat, rest: seq<Byte>)
    requires minor <= 1
    ensures ParseVersion(Version(minor) + rest) == Done(minor, 10)
  {
  }

  lemma WordEnds(word: seq<Byte>, rest: seq<Byte>)
    requires SP !in word
    ensures var s := word + [SP] + rest; Find(s, {SP}) == |word| && s[..|word|] == word && s[|word| + 1..] == rest
  {
    FindIs(word + [SP] + rest, {SP}, |word|);
  }

  function Version(minor: nat): seq<Byte> {
    [72, 84, 84, 80, 47, 49, 46, if minor == 0 then 48 else 49, CR, LF]
  }

  lemma LineReads(r: Request, rest: seq<Byte>)
    requires WellFormed(r)
    ensures ParseLine(WriteLine(r) + rest) == Done(Line(r.verb, r.path, r.minor), |WriteLine(r)|)
  {
    var v := Version(r.minor);
    var t := r.path + [SP] + (v + rest);
    VersionReads(r.minor, rest);
    hide ParseVersion, Find, Version;
    assert WriteLine(r) + rest == r.verb + [SP] + t;
    WordEnds(r.path, v + rest);
    assert AfterMethod(r.verb, |r.verb| + 1, t) == Done(Line(r.verb, r.path, r.minor), |WriteLine(r)|);
    WordEnds(r.verb, t);
  }

  /** Parsing a request written out gives the request back, whatever follows it. */
  lemma RequestReads(r: Request, rest: seq<Byte>)
    requires WellFormed(r)
    ensures ParseRequest(Write(r) + rest) == Done(r, |Write(r)|)
  {
    hide ParseLine, ParseHeaders, WriteLine, WriteHeaders;
    var s := Write(r) + rest;
    assert s == WriteLine(r) + (WriteHeaders(r.headers) + rest);
    LineReads(r, WriteHeaders(r.headers) + rest);
    assert s[|WriteLine(r)|..] == WriteHeaders(r.headers) + rest;
    HeadersRead(r.headers, 0, rest);
  }

  // ----- and nothing else is accepted

  lemma ValueWritable(s: seq<Byte>)
    requires ParseValue(s).Done?
    ensures var v := ParseValue(s).value;
            (forall i: nat :: !CrlfAt(v, i)) && (v != [] ==> !Blank(v[0]) && !Blank(v[|v| - 1]))
  {
    var t := s[Lead(s)..];
    var e := FindCrlf(t);
    var v := Trim(t[..e]);
    forall i: nat
      ensures !CrlfAt(v, i)
    {
      assert CrlfAt(v, i) ==> CrlfAt(t, i);
    }
  }

  lemma HeaderWritable(s: seq<Byte>)
    requires ParseHeader(s).Done?
    ensures Writable(ParseHeader(s).value)
  {
    hide ParseValue;
    var c := Find(s, {COLON, CR});
    ValueWritable(s[c + 1..]);
  }

  lemma {:induction false} HeadersWritable(s: seq<Byte>, before: nat)
    requires ParseHeaders(s, before).Done? && before <= MAX_HEADERS
    ensures var hs := ParseHeaders(s, before).value;
            before + |hs| <= MAX_HEADERS && forall i :: 0 <= i < |hs| ==> Writable(hs[i])
    decreases |s|
  {
    hide ParseHeader, Writable;
    if !(s[0] == CR && s[1] == LF) {
      HeaderWritable(s);
      HeadersWritable(s[ParseHeader(s).used..], before + 1);
    }
  }

  lemma LineWellFormed(s: seq<Byte>)
    requires ParseLine(s).Done?
    ensures var l := ParseLine(s).value; ValidMethod(l.verb) && l.path != [] && SP !in l.path && l.minor <= 1
  {
  }

  /** Whatever bytes it is given, the parser only ever hands out well-formed requests: so parsing,
      writing out and parsing again changes nothing. */
  lemma ParsedIsWellFormed(s: seq<Byte>)
    requires ParseRequest(s).Done?
    ensures WellFormed(ParseRequest(s).value)
    ensures ParseRequest(Write(ParseRequest(s).value)) == Done(ParseRequest(s).value, |Write(ParseRequest(s).value)|)
  {
    hide ParseLine, ParseHeaders, Writable, ValidMethod, Write;
    var l := ParseLine(s);
    LineWellFormed(s);
    HeadersWritable(s[l.used..], 0);
    var r := ParseRequest(s).value;
    RequestReads(r, []);
    assert Write(r) + [] == Write(r);
  }

  // ----- the parser itself

  /** valid_method. */
  method CheckMethod(m: seq<Byte>) returns (ok: bool)
    ensures ok <==> ValidMethod(m)
  {
    if |m| == 0 || |m| > 16 { return false; }
    for i := 0 to |m|
      invariant forall j :: 0 <= j < i ==> MethodByte(m[j])
    {
      if !MethodByte(m[i]) { return false; }
    }
    return true;
  }

  /** The request line. */
  method ReadLine(s: seq<Byte>, sse42: bool) returns (r: Outcome<Line>)
    ensures r == ParseLine(s)
  {
    var p := 0;
    assert s[0..] == s;
    var sp := FindSpace(s[p..], sse42);
    if sp == |s| { return Incomplete; }
    var verb := s[..sp];
    var ok := CheckMethod(verb);
    if !ok { return Malformed; }
    p := sp + 1;
    ghost var t := s[p..];
    sp := FindSpace(s[p..], sse42);
    if p + sp == |s| { return Incomplete; }
    var path := s[p..p + sp];
    assert path == t[..sp];
    if |path| == 0 { return Malformed; }
    p := p + sp + 1;
    assert t[sp + 1..] == s[p..];
    var v := ReadVersion(s[p..]);
    match v {
      case Malformed => r := Malformed;
      case Incomplete => r := Incomplete;
      case Done(minor, n) => r := Done(Line(verb, path, minor), p + n);
    }
  }

  method ReadVersion(s: seq<Byte>) returns (r: Outcome<nat>)
    ensures r == ParseVersion(s)
  {
    if |s| < 8 { return Incomplete; }
    assert s[..7] == [s[0], s[1], s[2], s[3], s[4], s[5], s[6]];
    if s[0] != 72 || s[1] != 84 || s[2] != 84 || s[3] != 80 || s[4] != 47 || s[5] != 49 || s[6] != 46 {
      return Malformed;
    }
    var minor;
    if s[7] == 48 {
      minor := 0;
    } else if s[7] == 49 {
      minor := 1;
    } else {
      return Malformed;
    }
    if |s| < 10 { return Incomplete; }
    if s[8] != CR || s[9] != LF { return Malformed; }
    return Done(minor, 10);
  }

  lemma TrimIs(s: seq<Byte>, n: nat)
    requires n <= |s| && (forall i :: n <= i < |s| ==> Blank(s[i])) && (n > 0 ==> !Blank(s[n - 1]))
    ensures Trim(s) == s[..n]
  {
  }

  /** A header value: skip blanks, find the line end, drop trailing blanks. */
  method ReadValue(s: seq<Byte>, sse42: bool) returns (r: Outcome<seq<Byte>>)
    ensures r == ParseValue(s)
  {
    hide Lead, Trim, FindCrlf;
    var p := SkipBlanks(s);
    var t := s[p..];
    var e := FindLineEnd(t, sse42);
    if e == |t| { return Incomplete; }
    var value := DropBlanks(t[..e]);
    return Done(value, p + e + 2);
  }

  method SkipBlanks(s: seq<Byte>) returns (p: nat)
    ensures p == Lead(s)
  {
    p := 0;
    while p < |s| && (s[p] == SP || s[p] == TAB)
      invariant p <= |s| && forall i :: 0 <= i < p ==> Blank(s[i])
    {
      p := p + 1;
    }
    LeadIs(s, p);
  }

  method DropBlanks(t: seq<Byte>) returns (r: seq<Byte>)
    ensures r == Trim(t)
  {
    var n: nat := |t|;
    while n > 0 && (t[n - 1] == SP || t[n - 1] == TAB)
      invariant n <= |t| && forall i :: n <= i < |t| ==> Blank(t[i])
    {
      n := n - 1;
    }
    TrimIs(t, n);
    r := t[..n];
  }

  /** One header line. */
  method ReadHeader(s: seq<Byte>, sse42: bool) returns (r: Outcome<Header>)
    ensures r == ParseHeader(s)
  {
    hide ParseValue;
    var colon := FindColonOrCr(s, sse42);
    if colon == |s| { return Incomplete; }
    if s[colon] == CR { return Malformed; }
    if colon == 0 { return Malformed; }
    var value := ReadValue(s[colon + 1..], sse42);
    if !value.Done? { return Incomplete; }
    return Done(Header(s[..colon], value.value), colon + 1 + value.used);
  }

  /** hs and n bytes come before whatever the rest parses to. */
  function Prepend(hs: seq<Header>, n: nat, rest: Outcome<seq<Header>>): Outcome<seq<Header>> {
    match rest
    case Malformed => Malformed
    case Incomplete => Incomplete
    case Done(more, m) => Done(hs + more, n + m)
  }

  lemma PrependNone(rest: Outcome<seq<Header>>)
    ensures Prepend([], 0, rest) == rest
  {
    if rest.Done? { assert [] + rest.value == rest.value; }
  }

  lemma PrependThen(hs: seq<Header>, n: nat, h: Header, k: nat, rest: Outcome<seq<Header>>)
    ensures Prepend(hs, n, Then(h, k, rest)) == Prepend(hs + [h], n + k, rest)
  {
    if rest.Done? { assert hs + ([h] + rest.value) == hs + [h] + rest.value; }
  }

  /** The header loop. */
  method ReadHeaders(s: seq<Byte>, sse42: bool) returns (r: Outcome<seq<Header>>)
    ensures r == ParseHeaders(s, 0)
  {
    hide ParseHeader;
    var p: nat := 0;
    var hs: seq<Header> := [];
    assert s[0..] == s;
    PrependNone(ParseHeaders(s, 0));
    while true
      invariant p <= |s| && ParseHeaders(s, 0) == Prepend(hs, p, ParseHeaders(s[p..], |hs|))
      decreases |s| - p
    {
      ghost var t := s[p..];
      if |s| - p < 2 { return Incomplete; }
      if s[p] == CR && s[p + 1] == LF {
        assert hs + [] == hs;
        return Done(hs, p + 2);
      }
      if |hs| >= MAX_HEADERS { return Malformed; }
      var h := ReadHeader(s[p..], sse42);
      match h {
        case Malformed => return Malformed;
        case Incomplete => return Incomplete;
        case Done(header, n) =>
          assert t[n..] == s[p + n..];
          PrependThen(hs, p, header, n, ParseHeaders(t[n..], |hs| + 1));
          hs := hs + [header];
          p := p + n;
      }
    }
  }

  /** march_http_parse_request_simd, with either set of finders. */
  method Parse(buf: seq<Byte>, sse42: bool) returns (r: Outcome<Request>)
    ensures r == ParseRequest(buf)
  {
    hide ParseLine, ParseHeaders;
    if |buf| == 0 { return Malformed; }
    var line := ReadLine(buf, sse42);
    match line {
      case Malformed => return Malformed;
      case Incomplete => return Incomplete;
      case Done(l, n) =>
        var hs := ReadHeaders(buf[n..], sse42);
        match hs {
          case Malformed => return Malformed;
          case Incomplete => return Incomplete;
          case Done(headers, m) => return Done(Request(l.verb, l.path, l.minor, headers), n + m);
        }
    }
  }

  // ----- Content-Length

  const CONTENT_LENGTH: seq<Byte> := [99, 111, 110, 116, 101, 110, 116, 45, 108, 101, 110, 103, 116, 104]

  function Lower(c: Byte): Byte {
    if 65 <= c <= 90 then c + 32 else c
  }

  predicate IsContentLength(name: seq<Byte>) {
    |name| == 14 && forall j :: 0 <= j < 14 ==> Lower(name[j]) == CONTENT_LENGTH[j]
  }

  predicate Digit(c: Byte) {
    48 <= c <= 57
  }

  /** The number written by the leading digits of s, after v. */
  function Number(v: nat, s: seq<Byte>): nat
    decreases |s|
  {
    if s == [] || !Digit(s[0]) then v else Number(v * 10 + (s[0] - 48), s[1..])
  }

  /** The first Content-Length header decides; absent or not a number means no body. */
  function ContentLength(hs: seq<Header>): nat {
    if hs == [] then 0
    else if IsContentLength(hs[0].name) then Number(0, hs[0].value[Lead(hs[0].value)..])
    else ContentLength(hs[1..])
  }

  function Decimal(n: nat): (r: seq<Byte>)
    ensures r != [] && forall i :: 0 <= i < |r| ==> Digit(r[i])
  {
    if n < 10 then [48 + n] else Decimal(n / 10) + [48 + n % 10]
  }

  lemma {:induction false} NumberSnoc(v: nat, s: seq<Byte>, d: Byte)
    requires (forall i :: 0 <= i < |s| ==> Digit(s[i])) && Digit(d)
    ensures Number(v, s + [d]) == Number(v, s) * 10 + (d - 48)
    decreases |s|
  {
    if s == [] {
      assert ([d])[1..] == [];
    } else {
      assert (s + [d])[1..] == s[1..] + [d];
      NumberSnoc(v * 10 + (s[0] - 48), s[1..], d);
    }
  }

  /** Every length, written in decimal, is read back. */
  lemma {:induction false} DecimalReads(n: nat)
    ensures Number(0, Decimal(n)) == n
  {
    if n >= 10 {
      DecimalReads(n / 10);
      NumberSnoc(0, Decimal(n / 10), 48 + n % 10);
    }
  }

  method MatchName(name: seq<Byte>) returns (ok: bool)
    ensures ok <==> IsContentLength(name)
  {
    if |name| != 14 { return false; }
    for j := 0 to 14
      invariant forall i :: 0 <= i < j ==> Lower(name[i]) == CONTENT_LENGTH[i]
    {
      if Lower(name[j]) != CONTENT_LENGTH[j] { return false; }
    }
    return true;
  }

  method ReadNumber(value: seq<Byte>) returns (v: nat)
    ensures v == Number(0, value[Lead(value)..])
  {
    var j := SkipBlanks(value);
    v := 0;
    while j < |value|
      invariant j <= |value| && Number(v, value[j..]) == Number(0, value[Lead(value)..])
    {
      var c := value[j];
      if !Digit(c) { break; }
      assert value[j..][1..] == value[j + 1..];
      v := v * 10 + (c - 48);
      j := j + 1;
    }
  }

  /** simd_content_length. */
  method BodyLength(hs: seq<Header>) returns (v: nat)
    ensures v == ContentLength(hs)
  {
    assert hs[0..] == hs;
    for i := 0 to |hs|
      invariant ContentLength(hs[i..]) == ContentLength(hs)
    {
      assert hs[i..][1..] == hs[i + 1..];
      var match14 := MatchName(hs[i].name);
      if match14 {
        v := ReadNumber(hs[i].value);
        return;
      }
    }
    return 0;
  }
}
