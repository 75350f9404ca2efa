/**
 The parser object and the printer of src/json_lite.cpp as they run: a cursor that advances
 over the text, out-parameters and an error slot, and buffers that are appended to. Each
 method is proved against the functions of `Json`.

 `Reports` says what that means for a method of the parser: on success the value and the
 cursor are those of the function, on failure the error slot holds its error, and then the
 cursor is of no interest.
 */
module JsonParser {
  import opened Bytes
  import opened Json

  class Parser {
    const t: bytes
    var p: nat
    var err: Option<Error>

    constructor (text: bytes)
      ensures t == text && p == 0 && err == None
    {
      t, p, err := text, 0, None;
    }

    /** The cursor stands where the specification says, or the error it names is stored. */
    ghost predicate Reports<T(!new)>(r: Result<T>, ok: bool, out: T)
      reads this
    {
      match r
      case Ok(v, n) => ok && out == v && p == n
      case Err(e) => !ok && err == Some(e)
    }

    method SkipSpace()
      requires p <= |t|
      modifies this`p
      ensures p == SkipWs(t, old(p))
    {
      while p < |t|
        invariant p <= |t| && SkipWs(t, p) == SkipWs(t, old(p))
      {
        if IsWs(t[p]) { p := p + 1; } else { break; }
      }
    }

    method Literal(lit: bytes) returns (ok: bool)
      requires p <= |t|
      modifies this`p
      ensures ok == LiteralAt(t, old(p), lit)
      ensures p == if ok then old(p) + |lit| else old(p)
    {
      if |t| - p < |lit| { return false; }
      var i := 0;
      while i < |lit|
        invariant i <= |lit| && t[p..p + i] == lit[..i]
      {
        if t[p + i] != lit[i] {
          assert t[p..p + |lit|][i] != lit[i];
          return false;
        }
        assert t[p..p + (i + 1)] == t[p..p + i] + [t[p + i]];
        i := i + 1;
      }
      assert lit[..i] == lit;
      p := p + |lit|;
      return true;
    }

    /** Four hex digits at `q`; the loop of both places that read them. */
    method HexDigits(q: nat) returns (r: Option<nat>)
      requires q + 4 <= |t|
      ensures r == Hex(t, q, 4)
    {
      var cp: nat := 0;
      var i := 0;
      while i < 4
        invariant i <= 4 && Hex(t, q, i) == Some(cp)
      {
        match HexValue(t[q + i])
        case None =>
          HexFails(t, q, i, 4);
          return None;
        case Some(d) =>
          cp := cp * 16 + d;
        i := i + 1;
      }
      return Some(cp);
    }

    /** The `\u` branch, the cursor behind the `u`. */
    method UnicodeEscape() returns (ok: bool, out: bytes)
      requires p <= |t|
      modifies this
      ensures p <= |t|
      ensures match UnicodePiece(t, old(p))
              case Emit(o, n) => ok && out == o && p == n
              case Bad(e) => !ok && err == Some(e)
              case Close => false
    {
      hide Hex, Utf8;
      out := [];
      if |t| - p < 4 { err := Some(BadUnicodeEscape); return false, out; }
      var h := HexDigits(p);
      if h == None { err := Some(BadHex); return false, out; }
      var cp := h.value;
      p := p + 4;
      if 0xD800 <= cp <= 0xDBFF && |t| - p >= 6 && t[p] == BACKSLASH && t[p + 1] == LOWER_U {
        var l := HexDigits(p + 2);
        if l == None { err := Some(BadLowSurrogate); return false, out; }
        if 0xDC00 <= l.value <= 0xDFFF {
          cp := 0x10000 + (cp - 0xD800) * 1024 + (l.value - 0xDC00);
          p := p + 6;
        }
      }
      return true, Utf8(cp);
    }

    method ParseStr() returns (ok: bool, out: bytes)
      requires p <= |t|
      modifies this
      ensures p <= |t| && Reports(ParseString(t, old(p)), ok, out)
    {
      hide UnicodePiece, SimpleEscape;
      out := [];
      if p >= |t| || t[p] != QUOTE { err := Some(ExpectedString); return false, out; }
      p := p + 1;
      while p < |t|
        invariant p <= |t|
        invariant StringBody(t, p, out) == ParseString(t, old(p))
        decreases |t| - p
      {
        var c := t[p];
        p := p + 1;
        if c == QUOTE { return true, out; }
        if c == BACKSLASH {
          if p >= |t| { err := Some(BadEscape); return false, out; }
          var e := t[p];
          p := p + 1;
          if e == LOWER_U {
            var good, u := UnicodeEscape();
            if !good { return false, out; }
            out := out + u;
          } else {
            match SimpleEscape(e)
            case Some(x) => out := out + [x];
            case None => err := Some(BadEscapeChar); return false, out;
          }
        } else {
          out := out + [c];
        }
      }
      err := Some(UnterminatedString);
      return false, out;
    }

    method SkipDigits()
      requires p <= |t|
      modifies this`p
      ensures p == DigitsEnd(t, old(p))
    {
      while p < |t| && IsDigit(t[p])
        invariant p <= |t| && DigitsEnd(t, p) == DigitsEnd(t, old(p))
      {
        p := p + 1;
      }
    }

    /** The cursor movement of `parse_number`. */
    method NumberRun()
      requires p < |t|
      modifies this`p
      ensures p == NumberEnd(t, old(p))
    {
      hide DigitsEnd, FractionEnd, ExponentEnd;
      if t[p] == MINUS { p := p + 1; }
      SkipDigits();
      FractionRun();
      ExponentRun();
    }

    method FractionRun()
      requires p <= |t|
      modifies this`p
      ensures p == FractionEnd(t, old(p))
    {
      hide DigitsEnd;
      if p < |t| && t[p] == DOT {
        p := p + 1;
        SkipDigits();
      }
    }

    method ExponentRun()
      requires p <= |t|
      modifies this`p
      ensures p == ExponentEnd(t, old(p))
    {
      hide DigitsEnd;
      if p < |t| && (t[p] == 101 || t[p] == 69) {
        p := p + 1;
        if p < |t| && (t[p] == 43 || t[p] == MINUS) { p := p + 1; }
        SkipDigits();
      }
    }

    method ParseNum() returns (ok: bool, out: real)
      requires p < |t|
      modifies this
      ensures p <= |t| && Reports(ParseNumber(t, old(p)), ok, out)
    {
      hide Stod, NumberEnd;
      var start := p;
      out := 0.0;
      NumberRun();
      if p == start { err := Some(BadNumber); return false, out; }
      match Stod(t[start..p])
      case None => err := Some(NumberRange); return false, out;
      case Some(x) => return true, x;
    }

    method ParseVal() returns (ok: bool, out: Value)
      requires p <= |t|
      modifies this
      ensures p <= |t| && Reports(ParseValue(t, old(p)), ok, out)
      decreases |t| - p, 2
    {
      hide SkipWs, ParseString, ParseNumber, ParseMembers, ParseElems;
      out := Null;
      SkipSpace();
      if p >= |t| { err := Some(UnexpectedEof); return false, out; }
      var c := t[p];
      if c == QUOTE {
        var good, s := ParseStr();
        if !good { return false, out; }
        return true, String(s);
      }
      if c == LBRACE {
        p := p + 1;
        SkipSpace();
        if p < |t| && t[p] == RBRACE { p := p + 1; return true, Object([]); }
        ok, out := MemberLoop();
        return;
      }
      if c == LBRACKET {
        p := p + 1;
        SkipSpace();
        if p < |t| && t[p] == RBRACKET { p := p + 1; return true, Array([]); }
        ok, out := ElemLoop();
        return;
      }
      if c == 116 || c == 102 || c == 110 {
        ok, out := Keyword(c);
        return;
      }
      if c == MINUS || IsDigit(c) {
        var good, d := ParseNum();
        if !good { return false, out; }
        return true, Number(d);
      }
      err := Some(UnexpectedCharacter);
      return false, out;
    }

    method Keyword(c: byte) returns (ok: bool, out: Value)
      requires p <= |t| && (c == 116 || c == 102 || c == 110)
      modifies this
      ensures p <= |t|
      ensures var lit := if c == 116 then TRUE_TEXT else if c == 102 then FALSE_TEXT else NULL_TEXT;
              var v := if c == 116 then Bool(true) else if c == 102 then Bool(false) else Null;
              Reports(if LiteralAt(t, old(p), lit) then Ok(v, old(p) + |lit|) else Err(BadLiteral), ok, out)
    {
      if c == 116 {
        out := Bool(true);
        ok := Literal(TRUE_TEXT);
      } else if c == 102 {
        out := Bool(false);
        ok := Literal(FALSE_TEXT);
      } else {
        out := Null;
        ok := Literal(NULL_TEXT);
      }
      if !ok { err := Some(BadLiteral); }
    }

    method KeyValue() returns (ok: bool, out: Member)
      requires p <= |t|
      modifies this
      ensures p <= |t| && Reports(ParseMember(t, old(p)), ok, out)
      decreases |t| - p, 3
    {
      hide SkipWs, ParseString, ParseValue;
      out := Member([], Null);
      SkipSpace();
      var good, key := ParseStr();
      if !good { return false, out; }
      SkipSpace();
      if p >= |t| || t[p] != COLON { err := Some(ExpectedColon); return false, out; }
      p := p + 1;
      var v;
      good, v := ParseVal();
      if !good { return false, out; }
      return true, Member(key, v);
    }

    /** The member loop of an object, the cursor behind its brace. */
    method MemberLoop() returns (ok: bool, out: Value)
      requires p <= |t|
      modifies this
      ensures p <= |t| && Reports(ParseMembers(t, old(p), []), ok, out)
      decreases |t| - p, 4
    {
      hide SkipWs, ParseMember, Emplace;
      var obj: seq<Member> := [];
      out := Null;
      while true
        invariant old(p) <= p <= |t|
        invariant ParseMembers(t, p, obj) == ParseMembers(t, old(p), [])
        decreases |t| - p
      {
        var good, m := KeyValue();
        if !good { return false, out; }
        obj := Emplace(obj, m.key, m.val);
        SkipSpace();
        if p < |t| && t[p] == COMMA { p := p + 1; continue; }
        if p < |t| && t[p] == RBRACE { p := p + 1; break; }
        err := Some(ExpectedCommaOrBrace);
        return false, out;
      }
      return true, Object(obj);
    }

    method ElemLoop() returns (ok: bool, out: Value)
      requires p <= |t|
      modifies this
      ensures p <= |t| && Reports(ParseElems(t, old(p), []), ok, out)
      decreases |t| - p, 3
    {
      hide SkipWs, ParseString, ParseValue;
      var arr: seq<Value> := [];
      out := Null;
      while true
        invariant old(p) <= p <= |t|
        invariant ParseElems(t, p, arr) == ParseElems(t, old(p), [])
        decreases |t| - p
      {
        var good, v := ParseVal();
        if !good { return false, out; }
        arr := arr + [v];
        SkipSpace();
        if p < |t| && t[p] == COMMA { p := p + 1; continue; }
        if p < |t| && t[p] == RBRACKET { p := p + 1; break; }
        err := Some(ExpectedCommaOrBracket);
        return false, out;
      }
      return true, Array(arr);
    }
  }

  lemma HexFails(t: bytes, q: nat, i: nat, n: nat)
    requires i < n <= 4 && q + n <= |t| && HexValue(t[q + i]) == None
    ensures Hex(t, q, n) == None
  {
  }

  /** The entry point `parse`. */
  method ParseText(text: bytes) returns (v: Option<Value>, e: Option<Error>)
    ensures match Parse(text)
            case Ok(x, _) => v == Some(x)
            case Err(x) => v == None && e == Some(x)
  {
    hide SkipWs, ParseValue;
    var ps := new Parser(text);
    ps.SkipSpace();
    var ok, out := ps.ParseVal();
    if !ok { return None, ps.err; }
    ps.SkipSpace();
    if ps.p < |text| { return None, Some(TrailingCharacters); }
    return Some(out), None;
  }

  // ---------- The printer ----------

  lemma {:induction false} EscapeBodySnoc(s: bytes, c: byte)
    ensures EscapeBody(s + [c]) == EscapeBody(s) + EscapeByte(c)
  {
    hide EscapeByte;
    if s != [] {
      assert (s + [c])[1..] == s[1..] + [c];
      EscapeBodySnoc(s[1..], c);
    }
  }

  method EscapeText(s: bytes) returns (out: bytes)
    ensures out == Escape(s)
  {
    hide EscapeByte, EscapeBody;
    out := [QUOTE];
    assert s[..0] == [];
    assert EscapeBody([]) == [] by { NoEscape(); }
    for i := 0 to |s|
      invariant out == [QUOTE] + EscapeBody(s[..i])
    {
      assert s[..i + 1] == s[..i] + [s[i]];
      EscapeBodySnoc(s[..i], s[i]);
      out := out + EscapeByte(s[i]);
    }
    assert s[..|s|] == s;
    out := out + [QUOTE];
  }

  lemma NoEscape()
    ensures EscapeBody([]) == []
  {
  }

  lemma {:induction false} ElemsTextSnoc(a: seq<Value>, v: Value)
    ensures ElemsText(a + [v]) == if a == [] then Text(v) else ElemsText(a) + [COMMA] + Text(v)
  {
    hide Text;
    if a != [] {
      assert (a + [v])[1..] == a[1..] + [v];
      ElemsTextSnoc(a[1..], v);
    }
  }

  lemma {:induction false} MembersTextSnoc(m: seq<Member>, x: Member)
    ensures MembersText(m + [x]) ==
            if m == [] then MemberText(x) else MembersText(m) + [COMMA] + MemberText(x)
  {
    hide MemberText;
    if m != [] {
      assert (m + [x])[1..] == m[1..] + [x];
      MembersTextSnoc(m[1..], x);
    }
  }

  /** `Value::dump` as a stream of appends. */
  method Dump(v: Value) returns (os: bytes)
    requires Printable(v)
    ensures os == Text(v)
    decreases v, 1
  {
    match v
    case Null => os := NULL_TEXT;
    case Bool(b) => os := if b then TRUE_TEXT else FALSE_TEXT;
    case Number(r) => os := DecimalInt(r.Floor);
    case String(s) => os := EscapeText(s);
    case Array(a) => os := DumpElems(a);
    case Object(m) => os := DumpMembers(m);
  }

  method DumpElems(a: seq<Value>) returns (os: bytes)
    requires forall i :: 0 <= i < |a| ==> Printable(a[i])
    ensures os == [LBRACKET] + ElemsText(a) + [RBRACKET]
    decreases a, 0
  {
    hide Text, Printable, ElemsText;
    os := [LBRACKET];
    assert a[..0] == [] && ElemsText([]) == [] by { NoParts(); }
    for i := 0 to |a|
      invariant os == [LBRACKET] + ElemsText(a[..i])
    {
      assert a[..i + 1] == a[..i] + [a[i]];
      ElemsTextSnoc(a[..i], a[i]);
      if i > 0 { os := os + [COMMA]; }
      var e := Dump(a[i]);
      os := os + e;
    }
    assert a[..|a|] == a;
    os := os + [RBRACKET];
  }

  method DumpMembers(m: seq<Member>) returns (os: bytes)
    requires forall i :: 0 <= i < |m| ==> Printable(m[i].val)
    ensures os == [LBRACE] + MembersText(m) + [RBRACE]
    decreases m, 0
  {
    hide Text, Printable, MembersText, Escape;
    os := [LBRACE];
    assert m[..0] == [] && MembersText([]) == [] by { NoParts(); }
    for i := 0 to |m|
      invariant os == [LBRACE] + MembersText(m[..i])
    {
      assert m[..i + 1] == m[..i] + [m[i]];
      MembersTextSnoc(m[..i], m[i]);
      if i > 0 { os := os + [COMMA]; }
      var k := EscapeText(m[i].key);
      var e := Dump(m[i].val);
      os := os + k + [COLON] + e;
    }
    assert m[..|m|] == m;
    os := os + [RBRACE];
  }

  lemma NoParts()
    ensures ElemsText([]) == [] && MembersText([]) == []
  {
  }
}
