/**
 JSON values, their printed text and the grammar the hand-written parser accepts
 (src/json_lite.cpp). Everything here is a function of the text and a position in it;
 `JsonParser` holds the parser object itself.

 Text is bytes, as in the source. A number is the exact value of its decimal text. An object
 is the listing of its members in the order of its keys, which is how the source's map keeps
 them; inserting into it never overwrites.
 */
module Json {
  import opened Bytes

  const QUOTE: byte := 34        // "
  const COMMA: byte := 44        // ,
  const MINUS: byte := 45        // -
  const DOT: byte := 46          // .
  const ZERO: byte := 48         // 0
  const COLON: byte := 58        // :
  const LBRACKET: byte := 91     // [
  const BACKSLASH: byte := 92    // \
  const RBRACKET: byte := 93     // ]
  const LBRACE: byte := 123      // {
  const RBRACE: byte := 125      // }
  const LOWER_U: byte := 117     // u
  const NULL_TEXT: bytes := [110, 117, 108, 108]
  const TRUE_TEXT: bytes := [116, 114, 117, 101]
  const FALSE_TEXT: bytes := [102, 97, 108, 115, 101]

  /** A number is the exact value of its decimal text. An object is the in-order listing of
      the std::map that the source keeps: keys strictly increasing, see `Sorted`. */
  datatype Value =
    | Null
    | Bool(b: bool)
    | Number(r: real)
    | String(s: bytes)
    | Array(elems: seq<Value>)
    | Object(members: seq<Member>)

  datatype Member = Member(key: bytes, val: Value)

  // ---------- std::map<std::string, Value> ----------

  /** Lexicographic order on unsigned bytes, the order of std::string keys. */
  predicate Less(a: bytes, b: bytes) {
    if b == [] then false
    else if a == [] then true
    else if a[0] != b[0] then a[0] < b[0]
    else Less(a[1..], b[1..])
  }

  ghost predicate Sorted(m: seq<Member>) {
    forall i, j :: 0 <= i < j < |m| ==> Less(m[i].key, m[j].key)
  }

  /** map::emplace: an existing key keeps its value. */
  function Emplace(m: seq<Member>, k: bytes, v: Value): seq<Member> {
    if m == [] then [Member(k, v)]
    else if Less(m[0].key, k) then [m[0]] + Emplace(m[1..], k, v)
    else if m[0].key == k then m
    else [Member(k, v)] + m
  }

  /** The map a member listing leaves behind when it is read into `acc`. */
  function EmplaceAll(acc: seq<Member>, m: seq<Member>): seq<Member>
    decreases |m|
  {
    if m == [] then acc else EmplaceAll(Emplace(acc, m[0].key, m[0].val), m[1..])
  }

  function Lookup(m: seq<Member>, k: bytes): Option<Value> {
    if m == [] then None
    else if m[0].key == k then Some(m[0].val)
    else Lookup(m[1..], k)
  }

  lemma {:induction false} LessIsStrict(a: bytes, b: bytes)
    ensures Less(a, b) ==> a != b && !Less(b, a)
    ensures a == b || Less(a, b) || Less(b, a)
  {
    if a != [] && b != [] && a[0] == b[0] {
      LessIsStrict(a[1..], b[1..]);
      assert a == [a[0]] + a[1..] && b == [b[0]] + b[1..];
    }
  }

  lemma {:induction false} LessTransitive(a: bytes, b: bytes, c: bytes)
    requires Less(a, b) && Less(b, c)
    ensures Less(a, c)
  {
    if a != [] && a[0] == b[0] == c[0] {
      LessTransitive(a[1..], b[1..], c[1..]);
    }
  }

  /** Emplacing keeps the listing strictly ordered and adds no key but the new one. */
  lemma {:induction false} EmplaceSorted(m: seq<Member>, k: bytes, v: Value)
    requires Sorted(m)
    ensures Sorted(Emplace(m, k, v))
    ensures forall x :: x in Emplace(m, k, v) ==> x in m || x == Member(k, v)
  {
    if m != [] {
      LessIsStrict(m[0].key, k);
      if Less(m[0].key, k) {
        assert Sorted(m[1..]);
        EmplaceSorted(m[1..], k, v);
        var e := Emplace(m[1..], k, v);
        forall x | x in e ensures Less(m[0].key, x.key) {
          if x in m[1..] {
            var i :| 0 <= i < |m[1..]| && m[1..][i] == x;
            assert x == m[i + 1];
          }
        }
        assert Emplace(m, k, v) == [m[0]] + e;
      } else if m[0].key != k {
        forall i | 0 <= i < |m| ensures Less(k, m[i].key) {
          if i > 0 { LessTransitive(k, m[0].key, m[i].key); }
        }
      }
    }
  }

  /** A key above every key present goes to the end. */
  lemma {:induction false} EmplaceAppends(m: seq<Member>, k: bytes, v: Value)
    requires forall x :: x in m ==> Less(x.key, k)
    ensures Emplace(m, k, v) == m + [Member(k, v)]
  {
    if m != [] {
      assert m[0] in m;
      EmplaceAppends(m[1..], k, v);
      assert m == [m[0]] + m[1..];
    }
  }

  /** What a later lookup sees: the first emplaced value of a key wins. */
  lemma {:induction false} EmplaceLookup(m: seq<Member>, k: bytes, v: Value, q: bytes)
    requires Sorted(m)
    ensures Lookup(Emplace(m, k, v), q) ==
            if q == k && Lookup(m, k) == None then Some(v) else Lookup(m, q)
  {
    if m != [] {
      LessIsStrict(m[0].key, k);
      if Less(m[0].key, k) {
        EmplaceLookup(m[1..], k, v, q);
      } else if m[0].key != k {
        NotListed(m, k);
        assert ([Member(k, v)] + m)[1..] == m;
      }
    }
  }

  lemma {:induction false} NotListed(m: seq<Member>, k: bytes)
    requires Sorted(m)
    requires m != [] ==> Less(k, m[0].key)
    ensures Lookup(m, k) == None
  {
    if m != [] {
      LessIsStrict(k, m[0].key);
      if |m| > 1 { LessTransitive(k, m[0].key, m[1].key); }
      NotListed(m[1..], k);
    }
  }

  /** Reading a sorted listing behind smaller keys reproduces it. */
  lemma {:induction false} EmplaceAllSorted(acc: seq<Member>, m: seq<Member>)
    requires Sorted(acc + m)
    ensures EmplaceAll(acc, m) == acc + m
    decreases |m|
  {
    hide Less;
    if m != [] {
      forall x | x in acc ensures Less(x.key, m[0].key) {
        var i :| 0 <= i < |acc| && acc[i] == x;
        assert (acc + m)[i] == x && (acc + m)[|acc|] == m[0];
      }
      EmplaceAppends(acc, m[0].key, m[0].val);
      assert Member(m[0].key, m[0].val) == m[0];
      assert acc + [m[0]] + m[1..] == acc + m;
      EmplaceAllSorted(acc + [m[0]], m[1..]);
    }
  }

  /** Any listing reads into an ordered map that answers with the first value of each key. */
  lemma {:induction false} EmplaceAllLookup(acc: seq<Member>, m: seq<Member>, q: bytes)
    requires Sorted(acc)
    ensures Sorted(EmplaceAll(acc, m))
    ensures Lookup(EmplaceAll(acc, m), q) == if Lookup(acc, q).Some? then Lookup(acc, q) else Lookup(m, q)
    decreases |m|
  {
    hide Less, Emplace;
    if m != [] {
      EmplaceSorted(acc, m[0].key, m[0].val);
      EmplaceLookup(acc, m[0].key, m[0].val, q);
      EmplaceAllLookup(Emplace(acc, m[0].key, m[0].val), m[1..], q);
    }
  }

  // ---------- Printing ----------

  function HexDigit(n: nat): byte
    requires n < 16
  {
    if n < 10 then ZERO + n else 87 + n
  }

  /** One byte of a string literal, as `escape` writes it. */
  function EscapeByte(c: byte): bytes {
    if c == QUOTE then [BACKSLASH, QUOTE]
    else if c == BACKSLASH then [BACKSLASH, BACKSLASH]
    else if c == 8 then [BACKSLASH, 98]
    else if c == 12 then [BACKSLASH, 102]
    else if c == 10 then [BACKSLASH, 110]
    else if c == 13 then [BACKSLASH, 114]
    else if c == 9 then [BACKSLASH, 116]
    else if c < 0x20 then [BACKSLASH, LOWER_U, ZERO, ZERO, HexDigit(c / 16), HexDigit(c % 16)]
    else [c]
  }

  function EscapeBody(s: bytes): bytes {
    if s == [] then [] else EscapeByte(s[0]) + EscapeBody(s[1..])
  }

  function Escape(s: bytes): bytes {
    [QUOTE] + EscapeBody(s) + [QUOTE]
  }

  function Decimal(n: nat): bytes {
    if n < 10 then [ZERO + n] else Decimal(n / 10) + [ZERO + n % 10]
  }

  function DecimalInt(i: int): bytes {
    if i < 0 then [MINUS] + Decimal(-i) else Decimal(i)
  }

  const DUMP_LIMIT := 9223372036854774784.0 // the double 9.2233720368547748e18

  /** The guard of the branch that prints a number as a plain integer. */
  predicate PrintsAsInteger(r: real) {
    -DUMP_LIMIT <= r <= DUMP_LIMIT && r.Floor as real == r
  }

  /** A value of the C++ type (its objects are ordered maps) all of whose numbers are integral. */
  ghost predicate Printable(v: Value) {
    match v
    case Number(r) => PrintsAsInteger(r)
    case Array(a) => forall i :: 0 <= i < |a| ==> Printable(a[i])
    case Object(m) => Sorted(m) && forall i :: 0 <= i < |m| ==> Printable(m[i].val)
    case _ => true
  }

  /** `dump`: the compact text of a value. */
  function Text(v: Value): bytes
    decreases v, 0
  {
    match v
    case Null => NULL_TEXT
    case Bool(b) => if b then TRUE_TEXT else FALSE_TEXT
    case Number(r) => DecimalInt(r.Floor)
    case String(s) => Escape(s)
    case Array(a) => [LBRACKET] + ElemsText(a) + [RBRACKET]
    case Object(m) => [LBRACE] + MembersText(m) + [RBRACE]
  }

  function ElemsText(a: seq<Value>): bytes
    decreases a, 1
  {
    if a == [] then []
    else if |a| == 1 then Text(a[0])
    else Text(a[0]) + [COMMA] + ElemsText(a[1..])
  }

  function MemberText(m: Member): bytes
    decreases m, 1
  {
    Escape(m.key) + [COLON] + Text(m.val)
  }

  function MembersText(m: seq<Member>): bytes
    decreases m, 2
  {
    if m == [] then []
    else if |m| == 1 then MemberText(m[0])
    else MemberText(m[0]) + [COMMA] + MembersText(m[1..])
  }

  // ---------- Grammar: white space, strings ----------

  datatype Error =
    | ExpectedString | BadEscape | BadUnicodeEscape | BadHex | BadLowSurrogate | BadEscapeChar
    | UnterminatedString | BadNumber | NumberRange | UnexpectedEof | ExpectedColon
    | ExpectedCommaOrBrace | ExpectedCommaOrBracket | BadLiteral | UnexpectedCharacter
    | TrailingCharacters

  datatype Result<+T> = Ok(value: T, next: nat) | Err(error: Error)

  predicate IsWs(c: byte) {
    c == 32 || c == 9 || c == 10 || c == 13
  }

  function SkipWs(t: bytes, p: nat): (q: nat)
    requires p <= |t|
    ensures p <= q <= |t|
    ensures q < |t| ==> !IsWs(t[q])
    ensures forall i :: p <= i < q ==> IsWs(t[i])
    decreases |t| - p
  {
    if p < |t| && IsWs(t[p]) then SkipWs(t, p + 1) else p
  }

  function HexValue(h: byte): Option<nat> {
    if 48 <= h <= 57 then Some(h - 48)
    else if 97 <= h <= 102 then Some(h - 87)
    else if 65 <= h <= 70 then Some(h - 55)
    else None
  }

  /** The value of the first `n` hex digits at `p`, if that is what they are. */
  function Hex(t: bytes, p: nat, n: nat): (r: Option<nat>)
    requires p + n <= |t| && n <= 4
    ensures r.Some? ==>
              r.value <
                if n == 0 then 1 else if n == 1 then 16 else if n == 2 then 256 else if n == 3 then 4096 else 65536
  {
    if n == 0 then Some(0)
    else match Hex(t, p, n - 1)
      case None => None
      case Some(hi) =>
        match HexValue(t[p + n - 1])
        case None => None
        case Some(lo) => Some(hi * 16 + lo)
  }

  /** The bytes the parser appends for a code point; lone surrogates take the three-byte form. */
  function Utf8(cp: nat): (u: bytes)
    requires cp < 0x110000
    ensures 1 <= |u| <= 4
  {
    if cp < 0x80 then [cp]
    else if cp < 0x800 then [0xC0 + cp / 64, 0x80 + cp % 64]
    else if cp < 0x10000 then [0xE0 + cp / 4096, 0x80 + cp / 64 % 64, 0x80 + cp % 64]
    else [0xF0 + cp / 262144, 0x80 + cp / 4096 % 64, 0x80 + cp / 64 % 64, 0x80 + cp % 64]
  }

  /** One step through the inside of a string literal. */
  datatype Piece = Close | Emit(out: bytes, next: nat) | Bad(error: Error)

  /** After `\u`: four hex digits, joined with a following low surrogate when there is one. */
  function UnicodePiece(t: bytes, p: nat): (r: Piece)
    requires p <= |t|
    ensures r.Emit? ==> p < r.next <= |t|
    ensures !r.Close?
  {
    if |t| - p < 4 then Bad(BadUnicodeEscape)
    else match Hex(t, p, 4)
      case None => Bad(BadHex)
      case Some(cp) =>
        if 0xD800 <= cp <= 0xDBFF && |t| - (p + 4) >= 6 && t[p + 4] == BACKSLASH && t[p + 5] == LOWER_U then
          match Hex(t, p + 6, 4)
          case None => Bad(BadLowSurrogate)
          case Some(lo) =>
            if 0xDC00 <= lo <= 0xDFFF
            then Emit(Utf8(0x10000 + (cp - 0xD800) * 1024 + (lo - 0xDC00)), p + 10)
            else Emit(Utf8(cp), p + 4)
        else Emit(Utf8(cp), p + 4)
  }

  function SimpleEscape(e: byte): Option<byte> {
    if e == QUOTE || e == BACKSLASH || e == 47 then Some(e)
    else if e == 98 then Some(8)
    else if e == 102 then Some(12)
    else if e == 110 then Some(10)
    else if e == 114 then Some(13)
    else if e == 116 then Some(9)
    else None
  }

  function NextPiece(t: bytes, p: nat): (r: Piece)
    requires p < |t|
    ensures r.Emit? ==> p < r.next <= |t|
  {
    if t[p] == QUOTE then Close
    else if t[p] != BACKSLASH then Emit([t[p]], p + 1)
    else if p + 1 >= |t| then Bad(BadEscape)
    else if t[p + 1] == LOWER_U then UnicodePiece(t, p + 2)
    else match SimpleEscape(t[p + 1])
      case Some(c) => Emit([c], p + 2)
      case None => Bad(BadEscapeChar)
  }

  function StringBody(t: bytes, p: nat, acc: bytes): (r: Result<bytes>)
    requires p <= |t|
    ensures r.Ok? ==> p < r.next <= |t|
    decreases |t| - p
  {
    if p == |t| then Err(UnterminatedString)
    else match NextPiece(t, p)
      case Close => Ok(acc, p + 1)
      case Bad(e) => Err(e)
      case Emit(o, n) => StringBody(t, n, acc + o)
  }

  function ParseString(t: bytes, p: nat): (r: Result<bytes>)
    requires p <= |t|
    ensures r.Ok? ==> p < r.next <= |t|
  {
    if p == |t| || t[p] != QUOTE then Err(ExpectedString) else StringBody(t, p + 1, [])
  }

  // ---------- Grammar: numbers ----------

  predicate IsDigit(c: byte) { 48 <= c <= 57 }

  function DigitsEnd(t: bytes, p: nat): (q: nat)
    requires p <= |t|
    ensures p <= q <= |t|
    ensures q < |t| ==> !IsDigit(t[q])
    ensures forall i :: p <= i < q ==> IsDigit(t[i])
    decreases |t| - p
  {
    if p < |t| && IsDigit(t[p]) then DigitsEnd(t, p + 1) else p
  }

  function SignEnd(t: bytes, p: nat): (q: nat)
    requires p < |t|
    ensures p <= q <= |t|
  {
    if t[p] == MINUS then p + 1 else p
  }

  function FractionEnd(t: bytes, p: nat): (q: nat)
    requires p <= |t|
    ensures p <= q <= |t|
  {
    if p < |t| && t[p] == DOT then DigitsEnd(t, p + 1) else p
  }

  function ExponentEnd(t: bytes, p: nat): (q: nat)
    requires p <= |t|
    ensures p <= q <= |t|
  {
    if p < |t| && (t[p] == 101 || t[p] == 69) then
      if p + 1 < |t| && (t[p + 1] == 43 || t[p + 1] == MINUS) then DigitsEnd(t, p + 2)
      else DigitsEnd(t, p + 1)
    else p
  }

  /** Where the character run that `parse_number` hands to std::stod ends. */
  function NumberEnd(t: bytes, p: nat): (q: nat)
    requires p < |t|
    ensures p <= q <= |t|
  {
    ExponentEnd(t, FractionEnd(t, DigitsEnd(t, SignEnd(t, p))))
  }

  function DigitsValue(s: bytes): nat
    requires forall i :: 0 <= i < |s| ==> IsDigit(s[i])
  {
    if s == [] then 0
    else
      assert IsDigit(s[|s| - 1]);
      10 * DigitsValue(s[..|s| - 1]) + (s[|s| - 1] - ZERO)
  }

  function Ten(k: nat): (r: real)
    ensures r > 0.0
  {
    if k == 0 then 1.0 else 10.0 * Ten(k - 1)
  }

  /** std::stod on such a run: the value of its longest well-formed prefix; it throws when the
      mantissa has no digit. The value is exact, binary64 rounding is not modelled. */
  function Stod(s: bytes): Option<real>
    requires s != []
  {
    var a := SignEnd(s, 0);
    var b := DigitsEnd(s, a);
    var c := FractionEnd(s, b);
    var frac := if b < c then s[b + 1..c] else [];
    if a == b && frac == [] then None
    else
      var mantissa := (DigitsValue(s[a..b] + frac) as real) / Ten(|frac|);
      var magnitude := Scaled(s, c, mantissa);
      Some(if a == 1 then -magnitude else magnitude)
  }

  function Scaled(s: bytes, c: nat, mantissa: real): real
    requires c <= |s|
  {
    if c == |s| || !(s[c] == 101 || s[c] == 69) then mantissa
    else
      var signed := c + 1 < |s| && (s[c + 1] == 43 || s[c + 1] == MINUS);
      var d := if signed then c + 2 else c + 1;
      var power := Ten(DigitsValue(s[d..DigitsEnd(s, d)]));
      if signed && s[c + 1] == MINUS then mantissa / power else mantissa * power
  }

  function ParseNumber(t: bytes, p: nat): (r: Result<real>)
    requires p < |t|
    ensures r.Ok? ==> p < r.next <= |t|
  {
    var q := NumberEnd(t, p);
    if q == p then Err(BadNumber)
    else match Stod(t[p..q])
      case None => Err(NumberRange)
      case Some(x) => Ok(x, q)
  }

  // ---------- Grammar: values ----------

  predicate LiteralAt(t: bytes, p: nat, lit: bytes) {
    p + |lit| <= |t| && t[p..p + |lit|] == lit
  }

  function ParseValue(t: bytes, p: nat): (r: Result<Value>)
    requires p <= |t|
    ensures r.Ok? ==> p < r.next <= |t|
    decreases |t| - p, 0
  {
    var q := SkipWs(t, p);
    if q == |t| then Err(UnexpectedEof)
    else if t[q] == QUOTE then
      match ParseString(t, q)
      case Err(e) => Err(e)
      case Ok(s, n) => Ok(String(s), n)
    else if t[q] == LBRACE then
      var m := SkipWs(t, q + 1);
      if m < |t| && t[m] == RBRACE then Ok(Object([]), m + 1) else ParseMembers(t, m, [])
    else if t[q] == LBRACKET then
      var m := SkipWs(t, q + 1);
      if m < |t| && t[m] == RBRACKET then Ok(Array([]), m + 1) else ParseElems(t, m, [])
    else if t[q] == TRUE_TEXT[0] then
      if LiteralAt(t, q, TRUE_TEXT) then Ok(Bool(true), q + 4) else Err(BadLiteral)
    else if t[q] == FALSE_TEXT[0] then
      if LiteralAt(t, q, FALSE_TEXT) then Ok(Bool(false), q + 5) else Err(BadLiteral)
    else if t[q] == NULL_TEXT[0] then
      if LiteralAt(t, q, NULL_TEXT) then Ok(Null, q + 4) else Err(BadLiteral)
    else if t[q] == MINUS || IsDigit(t[q]) then
      match ParseNumber(t, q)
      case Err(e) => Err(e)
      case Ok(x, n) => Ok(Number(x), n)
    else Err(UnexpectedCharacter)
  }

  /** One `"key":value` with the white space allowed around its parts. */
  function ParseMember(t: bytes, p: nat): (r: Result<Member>)
    requires p <= |t|
    ensures r.Ok? ==> p < r.next <= |t|
    decreases |t| - p, 1
  {
    match ParseString(t, SkipWs(t, p))
    case Err(e) => Err(e)
    case Ok(key, n) =>
      var c := SkipWs(t, n);
      if c == |t| || t[c] != COLON then Err(ExpectedColon)
      else match ParseValue(t, c + 1)
        case Err(e) => Err(e)
        case Ok(v, n') => Ok(Member(key, v), n')
  }

  /** The rest of an object after its members `acc`, starting at a key. */
  function ParseMembers(t: bytes, p: nat, acc: seq<Member>): (r: Result<Value>)
    requires p <= |t|
    ensures r.Ok? ==> p < r.next <= |t|
    decreases |t| - p, 2
  {
    match ParseMember(t, p)
    case Err(e) => Err(e)
    case Ok(m, n) =>
      var acc' := Emplace(acc, m.key, m.val);
      var e := SkipWs(t, n);
      if e < |t| && t[e] == COMMA then ParseMembers(t, e + 1, acc')
      else if e < |t| && t[e] == RBRACE then Ok(Object(acc'), e + 1)
      else Err(ExpectedCommaOrBrace)
  }

  /** The rest of an array after its elements `acc`, starting at an element. */
  function ParseElems(t: bytes, p: nat, acc: seq<Value>): (r: Result<Value>)
    requires p <= |t|
    ensures r.Ok? ==> p < r.next <= |t|
    decreases |t| - p, 1
  {
    match ParseValue(t, p)
    case Err(e) => Err(e)
    case Ok(v, n) =>
      var e := SkipWs(t, n);
      if e < |t| && t[e] == COMMA then ParseElems(t, e + 1, acc + [v])
      else if e < |t| && t[e] == RBRACKET then Ok(Array(acc + [v]), e + 1)
      else Err(ExpectedCommaOrBracket)
  }

  /** `parse`: exactly one value, white space around it. */
  function Parse(t: bytes): Result<Value> {
    match ParseValue(t, SkipWs(t, 0))
    case Err(e) => Err(e)
    case Ok(v, n) =>
      if SkipWs(t, n) == |t| then Ok(v, |t|) else Err(TrailingCharacters)
  }
}
