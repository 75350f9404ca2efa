/**
 Reading a field of a reply (`find`, `as_int` of include/obn/json_lite.hpp and `parse_wire_result` of
 src/tunnel_local.cpp), and what the answer says about the members that a sender wrote.
 */
module Replies {
  import opened Bytes
  import opened Json
  import opened JsonRoundTrip
  import opened JsonSpelling

  const KEY_RESULT: bytes := [114, 101, 115, 117, 108, 116]

  /** `find(key)` for a key without dots or brackets. */
  function Field(v: Value, key: bytes): Value {
    if v.Object? && Lookup(v.members, key).Some? then Lookup(v.members, key).value else Null
  }

  /** `as_int` truncates toward zero and reads 0 from anything that is not a number. */
  function AsInt(v: Value): int {
    if !v.Number? then 0 else if v.r >= 0.0 then v.r.Floor else -((-v.r).Floor)
  }

  /** The cast to a 32-bit int. */
  function Int32(v: int): (r: int)
    ensures -0x8000_0000 <= r < 0x8000_0000
    ensures -0x8000_0000 <= v < 0x8000_0000 ==> r == v
    ensures (v - r) % 0x1_0000_0000 == 0
  {
    (v + 0x8000_0000) % 0x1_0000_0000 - 0x8000_0000
  }

  /** `parse_wire_result` on a parsed reply: the code, -1 when there is none. */
  function ResultCode(v: Value): int {
    if Field(v, KEY_RESULT).Number? then Int32(AsInt(Field(v, KEY_RESULT))) else -1
  }

  /** `parse_wire_result` on the text of a reply. */
  function WireCode(t: bytes): int {
    match Parse(t)
    case Err(_) => -1
    case Ok(v, _) => ResultCode(v)
  }

  // ---------- In terms of the members ----------

  /** `n` is `r` without its fraction. */
  ghost predicate Truncates(r: real, n: int) {
    if r >= 0.0 then n as real <= r < n as real + 1.0 else n as real - 1.0 < r <= n as real
  }

  lemma AsIntIff(r: real, n: int)
    ensures AsInt(Number(r)) == n <==> Truncates(r, n)
  {
  }

  /** In a map a key has the value that is listed with it, and no other. */
  lemma {:induction false} LookupIff(m: seq<Member>, k: bytes, v: Value)
    requires Sorted(m)
    ensures Lookup(m, k) == Some(v) <==> Member(k, v) in m
    decreases |m|
  {
    hide Less;
    if m != [] {
      assert m == [m[0]] + m[1..];
      LookupIff(m[1..], k, v);
      if m[0].key == k && Member(k, v) in m[1..] {
        var i :| 0 <= i < |m[1..]| && m[1..][i] == Member(k, v);
        assert m[i + 1] == Member(k, v);
        LessIsStrict(m[0].key, m[i + 1].key);
      }
    }
  }

  lemma FieldIff(m: seq<Member>, k: bytes, v: Value)
    requires Sorted(m)
    ensures v != Null ==> (Field(Object(m), k) == v <==> Member(k, v) in m)
    ensures Field(Object(m), k) == Null <==> forall x :: Member(k, x) in m ==> x == Null
  {
    LookupIff(m, k, v);
    if Lookup(m, k).Some? { LookupIff(m, k, Lookup(m, k).value); }
    forall x | Member(k, x) in m ensures Lookup(m, k) == Some(x) { LookupIff(m, k, x); }
  }

  /** `n` is what `as_int` reads under a key: the number without its fraction, 0 when there is none. */
  ghost predicate Reads(m: seq<Member>, key: bytes, n: int) {
    if exists r :: Member(key, Number(r)) in m
    then exists r :: Member(key, Number(r)) in m && Truncates(r, n)
    else n == 0
  }

  lemma ReadsIff(m: seq<Member>, key: bytes, n: int)
    requires Sorted(m)
    ensures AsInt(Field(Object(m), key)) == n <==> Reads(m, key, n)
  {
    hide Field, AsInt, Truncates;
    var f := Field(Object(m), key);
    FieldIff(m, key, f);
    forall r | Member(key, Number(r)) in m ensures f == Number(r) { FieldIff(m, key, Number(r)); }
    if f.Number? { AsIntIff(f.r, n); } else { NoNumber(f); }
  }

  lemma NoNumber(v: Value)
    requires !v.Number?
    ensures AsInt(v) == 0
  {
  }

  /** The code of a reply: its `result` without the fraction, wrapped to 32 bits, and -1 when that is
      no number. */
  ghost predicate CodeOf(m: seq<Member>, code: int) {
    -2147483648 <= code <= 2147483647 &&
    if exists r :: Member(Ascii("result"), Number(r)) in m
    then exists r, n :: Member(Ascii("result"), Number(r)) in m && Truncates(r, n) && (n - code) % 4294967296 == 0
    else code == -1
  }

  lemma KeyIsResult()
    ensures Ascii("result") == KEY_RESULT
  {
  }

  lemma ResultCodeIff(m: seq<Member>, code: int)
    requires Sorted(m)
    ensures ResultCode(Object(m)) == code <==> CodeOf(m, code)
  {
    hide Field, AsInt, Truncates;
    KeyIsResult();
    var f := Field(Object(m), KEY_RESULT);
    FieldIff(m, KEY_RESULT, f);
    forall r | Member(KEY_RESULT, Number(r)) in m ensures f == Number(r) { FieldIff(m, KEY_RESULT, Number(r)); }
    if f.Number? {
      AsIntIff(f.r, AsInt(f));
      if CodeOf(m, code) {
        var r, n :| Member(KEY_RESULT, Number(r)) in m && Truncates(r, n) && (n - code) % 4294967296 == 0;
        AsIntIff(r, n);
        SameInt32(n, code);
      }
    }
  }

  lemma SameInt32(n: int, code: int)
    requires -2147483648 <= code <= 2147483647 && (n - code) % 4294967296 == 0
    ensures Int32(n) == code
  {
  }

  /** A text that is read as an object is one that some sender wrote for it. */
  lemma ParsedObject(t: bytes, m: seq<Member>)
    ensures Parse(t) == Ok(Object(m), |t|) <==> Writes(t, Object(m))
    ensures Writes(t, Object(m)) ==> Sorted(m)
    ensures Parse(t).Ok? ==> Parse(t).next == |t|
  {
    hide Writes, ParseValue;
    ParsesIff(t, Object(m));
    if Parse(t) == Ok(Object(m), |t|) { ParsedIsWellFormed(t, SkipWs(t, 0)); }
  }

  lemma OneObject(t: bytes, m: seq<Member>, n: seq<Member>)
    requires Writes(t, Object(m)) && Writes(t, Object(n))
    ensures m == n
  {
    hide Writes, Parse;
    ParsedObject(t, m);
    ParsedObject(t, n);
  }

  /** The code that a text stands for: that of the object written in it, -1 when there is none. */
  ghost predicate StandsFor(t: bytes, code: int) {
    if exists m :: Writes(t, Object(m)) then exists m :: Writes(t, Object(m)) && CodeOf(m, code) else code == -1
  }

  lemma WireCodeIff(t: bytes, code: int)
    ensures WireCode(t) == code <==> StandsFor(t, code)
  {
    hide Parse, Writes, CodeOf, ResultCode;
    forall m | Writes(t, Object(m))
      ensures Parse(t) == Ok(Object(m), |t|) && (WireCode(t) == code <==> CodeOf(m, code))
    {
      ParsedObject(t, m);
      ResultCodeIff(m, code);
    }
    if Parse(t).Ok? && Parse(t).value.Object? {
      ParsedObject(t, Parse(t).value.members);
    } else if Parse(t).Ok? {
      NoObject(Parse(t).value);
    }
  }

  lemma NoObject(v: Value)
    requires !v.Object?
    ensures ResultCode(v) == -1
  {
  }

  lemma WrittenCode(t: bytes, m: seq<Member>, code: int)
    requires Writes(t, Object(m))
    ensures StandsFor(t, code) <==> CodeOf(m, code)
  {
    hide Writes, CodeOf;
    forall n | Writes(t, Object(n)) ensures n == m { OneObject(t, m, n); }
  }
}
