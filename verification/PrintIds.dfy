/**
 Rewriting of the print ids in a status payload (src/agent.cpp): first-match string search,
 patches in place, no JSON parser.
 */
module PrintIds {
  import opened Bytes
  import opened Json
  import R = JsonRoundTrip
  import S = JsonSpelling

  const BLANK: byte := 32
  const UNDERSCORE: byte := 95

  const SUBTASK_NAME: bytes := [115, 117, 98, 116, 97, 115, 107, 95, 110, 97, 109, 101]
  const PROJECT_ID: bytes := [112, 114, 111, 106, 101, 99, 116, 95, 105, 100]
  const PROFILE_ID: bytes := [112, 114, 111, 102, 105, 108, 101, 95, 105, 100]
  const TASK_ID: bytes := [116, 97, 115, 107, 95, 105, 100]
  const SUBTASK_ID: bytes := [115, 117, 98, 116, 97, 115, 107, 95, 105, 100]
  const LAN: bytes := [108, 97, 110]
  const LAN_DASH: bytes := [108, 97, 110, 45]
  const MINUS_ONE: bytes := [45, 49]

  // ---------- Search and patch ----------

  predicate StartsWith(s: bytes, p: bytes) {
    |p| <= |s| && s[..|p|] == p
  }

  /** std::string::find, as the number of bytes in front of the first match. */
  function FindFirst(s: bytes, needle: bytes): (r: Option<nat>)
    ensures r.Some? ==> r.value + |needle| <= |s|
  {
    if StartsWith(s, needle) then Some(0)
    else if s == [] then None
    else match FindFirst(s[1..], needle)
      case None => None
      case Some(q) => Some(q + 1)
  }

  function Needle(key: bytes): bytes {
    [QUOTE] + key + [QUOTE, COLON]
  }

  function Blanks(s: bytes): (n: nat)
    ensures n <= |s| && (n < |s| ==> s[n] != BLANK)
    ensures forall i :: 0 <= i < n ==> s[i] == BLANK
  {
    if s != [] && s[0] == BLANK then 1 + Blanks(s[1..]) else 0
  }

  /** Length of a string body up to its closing quote; a backslash takes the next byte along. */
  function StringEnd(u: bytes): (r: Option<nat>)
    ensures r.Some? ==> r.value < |u|
  {
    if u == [] then None
    else if u[0] == QUOTE then Some(0)
    else
      var step := if u[0] == BACKSLASH && |u| > 1 then 2 else 1;
      match StringEnd(u[step..])
      case None => None
      case Some(n) => Some(n + step)
  }

  /** The string value at the head of what follows a key. */
  function ValueOf(s: bytes): Option<bytes> {
    var t := s[Blanks(s)..];
    if t == [] || t[0] != QUOTE then None
    else match StringEnd(t[1..])
      case None => None
      case Some(n) => Some(t[1..1 + n])
  }

  /** `json_peek_string_field` */
  function Peek(payload: bytes, key: bytes): Option<bytes> {
    match FindFirst(payload, Needle(key))
    case None => None
    case Some(q) => ValueOf(payload[q + |Needle(key)|..])
  }

  const EMPTY_STRING: bytes := [QUOTE, QUOTE]
  const ZERO_STRING: bytes := [QUOTE, ZERO, QUOTE]

  function Quoted(v: bytes): bytes {
    [QUOTE] + v + [QUOTE]
  }

  /** Where the value of the first match starts, behind blanks. */
  function ValueStart(payload: bytes, key: bytes): (r: Option<nat>)
    ensures r.Some? ==> r.value <= |payload|
  {
    match FindFirst(payload, Needle(key))
    case None => None
    case Some(q) =>
      var i := q + |Needle(key)|;
      Some(i + Blanks(payload[i..]))
  }

  /** `patch_string_zero_to`: None when the payload stays as it is. */
  function Patch(payload: bytes, key: bytes, value: bytes): Option<bytes> {
    match ValueStart(payload, key)
    case None => None
    case Some(i) =>
      if StartsWith(payload[i..], EMPTY_STRING) then Some(payload[..i] + Quoted(value) + payload[i + 2..])
      else if StartsWith(payload[i..], ZERO_STRING) then Some(payload[..i] + Quoted(value) + payload[i + 3..])
      else None
  }

  function Patched(payload: bytes, key: bytes, value: bytes): bytes {
    match Patch(payload, key, value)
    case None => payload
    case Some(p) => p
  }

  // ---------- The synthetic id ----------

  function Xor8(x: bv8, y: bv8): (r: nat)
    ensures r < 256
  {
    (x ^ y) as int
  }

  function XorByte(h: nat, c: byte): (r: nat)
    requires h < 0x1_0000_0000
    ensures r < 0x1_0000_0000
  {
    h / 256 * 256 + Xor8((h % 256) as bv8, c as bv8)
  }

  /** FNV-1a, 32 bits. */
  function Fnv1a(s: bytes, h: nat): (r: nat)
    requires h < 0x1_0000_0000
    ensures r < 0x1_0000_0000
  {
    if s == [] then h else Fnv1a(s[1..], XorByte(h, s[0]) * 16777619 % 0x1_0000_0000)
  }

  function SyntheticId(name: bytes, version: bytes): bytes {
    var keyed := if version == [] then name else name + [1] + version;
    var h := Fnv1a(keyed, 2166136261);
    LAN_DASH + R.HexDigits4(h / 65536) + R.HexDigits4(h % 65536)
  }

  /** The keys and texts by their names. */
  lemma KeysAre()
    ensures SUBTASK_NAME == Ascii("subtask_name") && PROJECT_ID == Ascii("project_id")
    ensures PROFILE_ID == Ascii("profile_id") && TASK_ID == Ascii("task_id") && SUBTASK_ID == Ascii("subtask_id")
    ensures LAN == Ascii("lan") && LAN_DASH == Ascii("lan-") && MINUS_ONE == Ascii("-1")
  {
    hide SUBTASK_NAME, PROJECT_ID, PROFILE_ID;
    LongKeysAre();
  }

  lemma LongKeysAre()
    ensures SUBTASK_NAME == Ascii("subtask_name") && PROJECT_ID == Ascii("project_id")
    ensures PROFILE_ID == Ascii("profile_id")
  {
    hide SUBTASK_NAME;
    NameIs();
  }

  lemma NameIs()
    ensures SUBTASK_NAME == Ascii("subtask_name")
  {
  }

  /** A synthetic id is the prefix and a hash in eight lower-case hexadecimal digits; the hash is that of
      the name, or of the name, a byte 1 and the version. */
  lemma IdLooks(name: bytes, version: bytes)
    ensures var id := SyntheticId(name, version);
            var h := Fnv1a(if version == [] then name else name + [1] + version, 2166136261);
            |id| == 12 && id[..4] == Ascii("lan-") &&
            S.IsHex4(id[4..8], h / 65536) && S.IsHex4(id[8..], h % 65536) &&
            forall i :: 4 <= i < 12 ==> !('A' <= id[i] as char <= 'Z')
  {
    hide Fnv1a, SUBTASK_NAME, PROJECT_ID, PROFILE_ID, TASK_ID, SUBTASK_ID;
    KeysAre();
    var h := Fnv1a(if version == [] then name else name + [1] + version, 2166136261);
    var id := SyntheticId(name, version);
    LowerHex(h / 65536);
    LowerHex(h % 65536);
    assert id[4..8] == R.HexDigits4(h / 65536) && id[8..] == R.HexDigits4(h % 65536);
    assert forall i :: 4 <= i < 8 ==> id[i] == R.HexDigits4(h / 65536)[i - 4];
    assert forall i :: 8 <= i < 12 ==> id[i] == R.HexDigits4(h % 65536)[i - 8];
  }

  lemma LowerHex(n: nat)
    requires n < 65536
    ensures S.IsHex4(R.HexDigits4(n), n) && forall i :: 0 <= i < 4 ==> !('A' <= R.HexDigits4(n)[i] as char <= 'Z')
  {
    hide HexDigit, S.HexLetter;
    LowerLetter(n / 4096);
    LowerLetter(n / 256 % 16);
    LowerLetter(n / 16 % 16);
    LowerLetter(n % 16);
  }

  lemma LowerLetter(d: nat)
    requires d < 16
    ensures S.HexLetter(HexDigit(d), d) && !('A' <= HexDigit(d) as char <= 'Z')
  {
  }

  /** The hash as its authors publish it, for the empty text, for `a` and for `fo`. */
  lemma HashIs()
    ensures Fnv1a([], 2166136261) == 0x811c9dc5
    ensures Fnv1a(Ascii("a"), 2166136261) == 0xe40c292c
    ensures Fnv1a(Ascii("fo"), 2166136261) == 0x6222e842
  {
    hide Fnv1a;
    HashNothing(0x811c9dc5);
    HashA();
    HashFo();
  }

  lemma {:induction false} HashA()
    ensures Fnv1a(Ascii("a"), 0x811c9dc5) == 0xe40c292c
  {
    hide Fnv1a, XorByte;
    assert Ascii("a") == ['a' as byte] + [];
    XorIs(0x811c9dc5, 'a' as byte);
    HashStep(0x811c9dc5, 'a' as byte, []);
    HashNothing(0xe40c292c);
  }

  lemma {:induction false} HashFo()
    ensures Fnv1a(Ascii("fo"), 0x811c9dc5) == 0x6222e842
  {
    hide Fnv1a;
    var o: bytes := ['o' as byte];
    assert Ascii("fo") == ['f' as byte] + o && o + [] == o;
    HashF(o);
    HashO();
  }

  lemma {:induction false} HashF(rest: bytes)
    ensures Fnv1a(['f' as byte] + rest, 0x811c9dc5) == Fnv1a(rest, 0xe30c2799)
  {
    hide Fnv1a, XorByte;
    XorIs(0x811c9dc5, 'f' as byte);
    HashStep(0x811c9dc5, 'f' as byte, rest);
  }

  lemma {:induction false} HashO()
    ensures Fnv1a(['o' as byte] + [], 0xe30c2799) == 0x6222e842
  {
    hide Fnv1a, XorByte;
    XorIs(0xe30c2799, 'o' as byte);
    HashStep(0xe30c2799, 'o' as byte, []);
    HashNothing(0x6222e842);
  }

  lemma XorIs(h: nat, c: byte)
    requires (h == 0x811c9dc5 && (c == 97 || c == 102)) || (h == 0xe30c2799 && c == 111)
    ensures XorByte(h, c) == if c == 97 then 0x811c9da4 else if c == 102 then 0x811c9da3 else 0xe30c27f6
  {
    assert (0xc5 as bv8) ^ (97 as bv8) == 0xa4 && (0xc5 as bv8) ^ (102 as bv8) == 0xa3;
    assert (0x99 as bv8) ^ (111 as bv8) == 0xf6;
  }

  lemma HashNothing(h: nat)
    requires h < 0x1_0000_0000
    ensures Fnv1a([], h) == h
  {
  }

  lemma {:induction false} HashStep(h: nat, c: byte, rest: bytes)
    requires h < 0x1_0000_0000
    ensures Fnv1a([c] + rest, h) == Fnv1a(rest, XorByte(h, c) * 16777619 % 0x1_0000_0000)
  {
    hide XorByte;
    assert ([c] + rest)[1..] == rest;
  }

  // ---------- Rewriting ----------

  predicate RealName(n: Option<bytes>) {
    n.Some? && n.value != [] && n.value != MINUS_ONE
  }

  function PatchAll(payload: bytes, id: bytes): bytes {
    Patched(Patched(Patched(Patched(payload, PROJECT_ID, LAN), PROFILE_ID, LAN), TASK_ID, id), SUBTASK_ID, id)
  }

  /** `try_rewrite_print_ids` */
  function Rewrite(payload: bytes, version: bytes): bytes {
    var name := Peek(payload, SUBTASK_NAME);
    if !RealName(name) then payload else PatchAll(payload, SyntheticId(name.value, version))
  }

  // ---------- First-match search is stable under patches ----------

  /** Keys and inserted values that cannot be mistaken for one another. */
  ghost predicate IsKey(k: bytes) {
    k != [] && k[0] != COLON && k[0] != 108 && k[0] != ZERO &&
    forall i :: 0 <= i < |k| ==> k[i] != QUOTE && k[i] != BACKSLASH
  }

  /** What stands, or will stand, between the quotes of a patched value. */
  ghost predicate IsFill(w: bytes) {
    (w != [] ==> w[0] == 108 || w[0] == ZERO) &&
    forall i :: 0 <= i < |w| ==> w[i] != QUOTE && w[i] != BACKSLASH
  }

  lemma FoundMeans(s: bytes, needle: bytes, q: nat)
    requires FindFirst(s, needle) == Some(q)
    ensures q + |needle| <= |s| && StartsWith(s[q..], needle)
  {
    if !StartsWith(s, needle) {
      FoundMeans(s[1..], needle, q - 1);
      assert s[1..][q - 1..] == s[q..];
    } else {
      assert s[0..] == s;
    }
  }

  /** A needle has its quotes at the ends of the key, and a colon behind the second. */
  lemma NeedleBytes(s: bytes, k: bytes)
    requires StartsWith(s, Needle(k))
    ensures |s| >= |k| + 3 && s[0] == QUOTE && s[|k| + 1] == QUOTE && s[|k| + 2] == COLON
    ensures forall i :: 0 <= i < |k| ==> s[1 + i] == k[i]
  {
    var n := Needle(k);
    assert n[0] == QUOTE && n[|k| + 1] == QUOTE && n[|k| + 2] == COLON;
    assert forall i :: 0 <= i < |k| ==> n[1 + i] == k[i];
    assert forall i :: 0 <= i < |n| ==> s[i] == s[..|n|][i];
  }

  lemma NeedleIntro(s: bytes, k: bytes)
    requires |s| >= |k| + 3 && s[0] == QUOTE && s[|k| + 1] == QUOTE && s[|k| + 2] == COLON
    requires forall i :: 0 <= i < |k| ==> s[1 + i] == k[i]
    ensures StartsWith(s, Needle(k))
  {
    assert s[..|k| + 3] == Needle(k);
  }

  /** No match starts in front of the filled value and reaches into it. */
  lemma NoMatchAcross(a: bytes, w: bytes, b: bytes, k: bytes)
    requires IsKey(k) && IsFill(w)
    ensures StartsWith(a + Quoted(w) + b, Needle(k)) <==> StartsWith(a, Needle(k))
  {
    var s := a + Quoted(w) + b;
    if StartsWith(a, Needle(k)) {
      NeedleBytes(a, k);
      NeedleIntro(s, k);
    } else if StartsWith(s, Needle(k)) {
      NeedleBytes(s, k);
      var n := |a|;
      assert s[n] == QUOTE;
      assert s[n + 1] == if w == [] then QUOTE else w[0];
      if n > |k| + 2 { NeedleIntro(a, k); }
    }
  }

  /** Nor does one start inside it. */
  lemma {:induction false} NoMatchInside(w: bytes, b: bytes, k: bytes)
    requires IsKey(k) && forall i :: 0 <= i < |w| ==> w[i] != QUOTE
    ensures FindFirst(w + [QUOTE] + b, Needle(k)) ==
            match FindFirst([QUOTE] + b, Needle(k))
            case None => None
            case Some(q) => Some(q + |w|)
    decreases |w|
  {
    var s := w + [QUOTE] + b;
    if w == [] {
      assert s == [QUOTE] + b;
    } else {
      if StartsWith(s, Needle(k)) { NeedleBytes(s, k); }
      assert s[1..] == w[1..] + [QUOTE] + b;
      NoMatchInside(w[1..], b, k);
    }
  }

  lemma FillHasNoQuote(w: bytes)
    requires IsFill(w)
    ensures forall i :: 0 <= i < |w| ==> w[i] != QUOTE
  {
  }

  /** Where the first match is, around a filled value: in front of it, or from its closing quote
      on; never because of what fills it. */
  lemma {:induction false} FindAround(a: bytes, w: bytes, b: bytes, k: bytes)
    requires IsKey(k) && IsFill(w)
    ensures FindFirst(a + Quoted(w) + b, Needle(k)) ==
            match FindFirst(a, Needle(k))
            case Some(q) => Some(q)
            case None =>
              match FindFirst([QUOTE] + b, Needle(k))
              case None => None
              case Some(q) => Some(|a| + 1 + |w| + q)
    decreases |a|
  {
    hide IsKey, IsFill, Needle;
    var s := a + Quoted(w) + b;
    NoMatchAcross(a, w, b, k);
    if a == [] {
      assert s[1..] == w + [QUOTE] + b;
      FillHasNoQuote(w);
      NoMatchInside(w, b, k);
    } else {
      assert s[1..] == a[1..] + Quoted(w) + b;
      FindAround(a[1..], w, b, k);
    }
  }

  // ---------- Values are stable under patches of other keys ----------

  lemma {:induction false} StringEndStays(u: bytes, v: bytes)
    requires StringEnd(u).Some?
    ensures StringEnd(u + v) == StringEnd(u)
    decreases |u|
  {
    if u[0] != QUOTE {
      var step := if u[0] == BACKSLASH && |u| > 1 then 2 else 1;
      assert (u + v)[step..] == u[step..] + v;
      StringEndStays(u[step..], v);
    }
  }

  /** A string scan that has a whole quoted key in front of it ends at the key's quotes at last. */
  lemma {:induction false} ScanEndsAtKey(u: bytes, j: nat, k: bytes)
    requires IsKey(k) && j <= |u| && StartsWith(u[j..], Needle(k))
    ensures StringEnd(u).Some?
    decreases |u|
  {
    hide IsKey;
    NeedleBytes(u[j..], k);
    if u[0] != QUOTE {
      if u[0] == BACKSLASH {
        if j == 1 {
          assert u[2..] == u[j..][1..];
          ScanEndsInKey(u[2..], k);
        } else {
          assert u[2..][j - 2..] == u[j..];
          ScanEndsAtKey(u[2..], j - 2, k);
        }
      } else {
        assert u[1..][j - 1..] == u[j..];
        ScanEndsAtKey(u[1..], j - 1, k);
      }
    }
  }

  lemma {:induction false} ScanEndsInKey(u: bytes, k: bytes)
    requires |u| > |k| && u[|k|] == QUOTE
    requires forall i :: 0 <= i < |k| ==> u[i] == k[i]
    requires IsKey(k) || forall i :: 0 <= i < |k| ==> k[i] != BACKSLASH
    ensures StringEnd(u).Some?
    decreases |k|
  {
    if k != [] && u[0] != QUOTE {
      assert k[0] != BACKSLASH;
      ScanEndsInKey(u[1..], k[1..]);
    }
  }

  lemma {:induction false} BlanksStay(s: bytes, v: bytes)
    requires Blanks(s) < |s|
    ensures Blanks(s + v) == Blanks(s)
    decreases |s|
  {
    if s[0] == BLANK {
      assert (s + v)[1..] == s[1..] + v;
      BlanksStay(s[1..], v);
    }
  }

  /** The value behind a key does not depend on what follows a later key. */
  lemma ValueStays(s: bytes, j: nat, k: bytes, v: bytes)
    requires IsKey(k) && j <= |s| && StartsWith(s[j..], Needle(k))
    ensures ValueOf(s + v) == ValueOf(s)
  {
    hide IsKey, Needle, StringEnd;
    NeedleBytes(s[j..], k);
    var n := Blanks(s);
    assert s[j] == QUOTE;
    assert n <= j;
    BlanksStay(s, v);
    var t := s[n..];
    assert (s + v)[n..] == t + v;
    if t[0] == QUOTE {
      var u := t[1..];
      assert (t + v)[1..] == u + v;
      if n == j {
        assert u == s[j..][1..];
        KeyHasNoBackslash(k);
        ScanEndsInKey(u, k);
      } else {
        assert u[j - n - 1..] == s[j..];
        ScanEndsAtKey(u, j - n - 1, k);
      }
      StringEndStays(u, v);
      var e := StringEnd(u).value;
      assert (t + v)[1..1 + e] == t[1..1 + e];
    }
  }

  lemma KeyHasNoBackslash(k: bytes)
    requires IsKey(k)
    ensures forall i :: 0 <= i < |k| ==> k[i] != BACKSLASH
  {
  }

  /** Two different keys cannot match so that one match reaches into the other. */
  lemma MatchesApart(s: bytes, q: nat, k: bytes, j: nat, key: bytes)
    requires IsKey(k) && IsKey(key) && k != key
    requires q <= |s| && j <= |s| && StartsWith(s[q..], Needle(k)) && StartsWith(s[j..], Needle(key))
    ensures q + |Needle(k)| <= j || j + |Needle(key)| <= q
  {
    NeedleBytes(s[q..], k);
    NeedleBytes(s[j..], key);
    assert forall i :: 0 <= i < |k| ==> s[q + 1 + i] == k[i];
    assert forall i :: 0 <= i < |key| ==> s[j + 1 + i] == key[i];
    assert s[q] == QUOTE && s[q + |k| + 1] == QUOTE && s[q + |k| + 2] == COLON;
    assert s[j] == QUOTE && s[j + |key| + 1] == QUOTE && s[j + |key| + 2] == COLON;
  }

  /** The parts of a payload around the value that a patch replaces: text up to it, ending in the
      key and blanks, and text behind it. */
  ghost predicate Around(a: bytes, key: bytes) {
    match FindFirst(a, Needle(key))
    case None => false
    case Some(j) => j + |Needle(key)| + Blanks(a[j + |Needle(key)|..]) == |a|
  }

  /** A patch exchanges one fill for another and touches nothing else. */
  lemma PatchShape(p: bytes, key: bytes, v: bytes) returns (a: bytes, w: bytes, b: bytes)
    requires IsKey(key) && Patch(p, key, v).Some?
    ensures p == a + Quoted(w) + b && (w == [] || w == [ZERO])
    ensures Patch(p, key, v).value == a + Quoted(v) + b
    ensures Around(a, key)
  {
    hide IsKey, Needle, FindFirst;
    var i := ValueStart(p, key).value;
    a := p[..i];
    w := if StartsWith(p[i..], EMPTY_STRING) then [] else [ZERO];
    b := p[i + 2 + |w|..];
    assert p[i..i + 2 + |w|] == p[i..][..2 + |w|] == Quoted(w);
    assert p == a + Quoted(w) + b;
    var q := FindFirst(p, Needle(key)).value;
    FoundInFront(p, key, i, w, b);
    var m := q + |Needle(key)|;
    SliceOfPrefix(p, m, i);
    BlanksOnly(a[m..]);
  }

  lemma SliceOfPrefix(p: bytes, m: nat, i: nat)
    requires m <= i <= |p|
    ensures p[..i][m..] == p[m..][..i - m]
  {
  }

  lemma {:induction false} BlanksOnly(s: bytes)
    requires forall i :: 0 <= i < |s| ==> s[i] == BLANK
    ensures Blanks(s) == |s|
  {
    if s != [] { BlanksOnly(s[1..]); }
  }

  lemma FoundInFront(p: bytes, key: bytes, i: nat, w: bytes, b: bytes)
    requires IsKey(key) && i <= |p| && p == p[..i] + Quoted(w) + b && (w == [] || w == [ZERO])
    requires FindFirst(p, Needle(key)).Some? && FindFirst(p, Needle(key)).value + |Needle(key)| <= i
    ensures FindFirst(p[..i], Needle(key)) == FindFirst(p, Needle(key))
  {
    hide IsKey, Needle, FindFirst;
    FindAround(p[..i], w, b, key);
  }

  /** After a patch the key reads as the value put in. */
  lemma PeekOwn(a: bytes, v: bytes, b: bytes, key: bytes)
    requires IsKey(key) && IsFill(v) && Around(a, key)
    ensures Peek(a + Quoted(v) + b, key) == Some(v)
  {
    hide IsKey, Needle, FindFirst, ValueOf;
    var p := a + Quoted(v) + b;
    FindAround(a, v, b, key);
    var m := FindFirst(a, Needle(key)).value + |Needle(key)|;
    assert p[m..] == a[m..] + (Quoted(v) + b);
    ValueOfFill(a[m..], v, b);
  }

  /** A field is read from its first occurrence: the name in quotes, a colon, any blanks, and the text up to
      the next quote when that holds no backslash. */
  lemma PeekReads(a: bytes, key: bytes, gap: bytes, v: bytes, b: bytes)
    requires IsKey(key) && (forall i :: 0 <= i < |gap| ==> gap[i] as char == ' ')
    requires forall i :: 0 <= i < |v| ==> v[i] as char != '"' && v[i] as char != '\\'
    requires var p := a + ['"' as byte] + key + ['"' as byte, ':' as byte] + gap +
                      ['"' as byte] + v + ['"' as byte] + b;
             forall q :: 0 <= q < |a| ==> !StartsWith(p[q..], ['"' as byte] + key + ['"' as byte, ':' as byte])
    ensures var p := a + ['"' as byte] + key + ['"' as byte, ':' as byte] + gap + ['"' as byte] + v + ['"' as byte] + b;
            Peek(p, key) == Some(v)
  {
    hide IsKey, FindFirst, ValueOf, Needle, StartsWith;
    var p := a + ['"' as byte] + key + ['"' as byte, ':' as byte] + gap + ['"' as byte] + v + ['"' as byte] + b;
    var rest := gap + (Quoted(v) + b);
    assert Needle(key) == ['"' as byte] + key + ['"' as byte, ':' as byte] by { NeedleIs(key); }
    assert p == a + (Needle(key) + rest);
    Begins(Needle(key), rest);
    assert p[|a|..] == Needle(key) + rest;
    assert NoneBefore(p, Needle(key), |a|);
    FirstIs(p, Needle(key), |a|);
    assert p[|a| + |Needle(key)|..] == rest;
    BlanksOnly(gap);
    TextValue(gap, v, b);
  }

  lemma NeedleIs(key: bytes)
    ensures Needle(key) == ['"' as byte] + key + ['"' as byte, ':' as byte]
  {
  }

  lemma Begins(n: bytes, rest: bytes)
    ensures StartsWith(n + rest, n)
  {
  }

  ghost predicate NoneBefore(s: bytes, needle: bytes, n: nat)
    requires n <= |s|
  {
    forall q :: 0 <= q < n ==> !StartsWith(s[q..], needle)
  }

  lemma NoneBehind(s: bytes, needle: bytes, n: nat)
    requires 0 < n <= |s| && NoneBefore(s, needle, n)
    ensures !StartsWith(s, needle) && NoneBefore(s[1..], needle, n - 1)
  {
    hide StartsWith;
    assert s[0..] == s;
    forall q | 0 <= q < n - 1 ensures !StartsWith(s[1..][q..], needle) { assert s[1..][q..] == s[q + 1..]; }
  }

  lemma {:induction false} FirstIs(s: bytes, needle: bytes, n: nat)
    requires n <= |s| && StartsWith(s[n..], needle) && NoneBefore(s, needle, n)
    ensures FindFirst(s, needle) == Some(n)
    decreases n
  {
    hide StartsWith, NoneBefore;
    if n == 0 {
      assert s[0..] == s;
    } else {
      assert s[1..][n - 1..] == s[n..];
      NoneBehind(s, needle, n);
      FirstIs(s[1..], needle, n - 1);
    }
  }

  lemma TextValue(gap: bytes, v: bytes, b: bytes)
    requires Blanks(gap) == |gap| && forall i :: 0 <= i < |v| ==> v[i] != QUOTE && v[i] != BACKSLASH
    ensures ValueOf(gap + (Quoted(v) + b)) == Some(v)
  {
    hide StringEnd, Blanks;
    var t := Quoted(v) + b;
    BlanksThen(gap, t);
    assert (gap + t)[|gap|..] == t;
    TextIsValue(v, b);
  }

  lemma TextIsValue(v: bytes, b: bytes)
    requires forall i :: 0 <= i < |v| ==> v[i] != QUOTE && v[i] != BACKSLASH
    ensures var t := Quoted(v) + b; t[0] == QUOTE && StringEnd(t[1..]) == Some(|v|) && t[1..1 + |v|] == v
  {
    hide StringEnd;
    FillEnds(v, b);
    assert (Quoted(v) + b)[1..] == v + [QUOTE] + b;
  }

  /** A name is real when there is one that is neither empty nor `-1`. */
  lemma RealNameIff(n: Option<bytes>)
    ensures RealName(n) <==> n.Some? && |n.value| > 0 && n.value != Ascii("-1")
  {
    assert Ascii("-1") == MINUS_ONE;
  }

  lemma ValueOfFill(s: bytes, v: bytes, b: bytes)
    requires Blanks(s) == |s| && IsFill(v)
    ensures ValueOf(s + (Quoted(v) + b)) == Some(v)
  {
    hide StringEnd, Blanks, IsFill;
    var t := Quoted(v) + b;
    BlanksThen(s, t);
    assert (s + t)[|s|..] == t;
    FillIsValue(v, b);
  }

  lemma FillIsValue(v: bytes, b: bytes)
    requires IsFill(v)
    ensures var t := Quoted(v) + b; t[0] == QUOTE && StringEnd(t[1..]) == Some(|v|) && t[1..1 + |v|] == v
  {
    TextIsValue(v, b);
  }

  lemma {:induction false} BlanksThen(s: bytes, t: bytes)
    requires Blanks(s) == |s| && t != [] && t[0] == QUOTE
    ensures Blanks(s + t) == |s|
  {
    if s == [] {
      assert s + t == t;
    } else {
      assert (s + t)[1..] == s[1..] + t;
      BlanksThen(s[1..], t);
    }
  }

  lemma {:induction false} FillEnds(v: bytes, b: bytes)
    requires forall i :: 0 <= i < |v| ==> v[i] != QUOTE && v[i] != BACKSLASH
    ensures StringEnd(v + [QUOTE] + b) == Some(|v|)
  {
    if v != [] {
      assert (v + [QUOTE] + b)[1..] == v[1..] + [QUOTE] + b;
      FillEnds(v[1..], b);
    }
  }

  /** And every other key reads as before. */
  lemma PeekOther(a: bytes, w: bytes, v: bytes, b: bytes, key: bytes, k: bytes)
    requires IsKey(key) && IsKey(k) && k != key && IsFill(w) && IsFill(v) && Around(a, key)
    ensures Peek(a + Quoted(w) + b, k) == Peek(a + Quoted(v) + b, k)
  {
    hide IsKey, Needle, FindFirst, IsFill, ValueOf;
    FindAround(a, w, b, k);
    FindAround(a, v, b, k);
    match FindFirst(a, Needle(k)) {
      case Some(q) =>
        var m := q + |Needle(k)|;
        FoundBefore(a, q, k, key);
        ValueInFront(a, m, key, Quoted(w) + b);
        ValueInFront(a, m, key, Quoted(v) + b);
        assert (a + Quoted(w) + b)[m..] == a[m..] + (Quoted(w) + b);
        assert (a + Quoted(v) + b)[m..] == a[m..] + (Quoted(v) + b);
      case None =>
        match FindFirst([QUOTE] + b, Needle(k)) {
          case None =>
          case Some(q) =>
            var m := q + |Needle(k)|;
            TailSlice(a, w, b, m);
            TailSlice(a, v, b, m);
        }
    }
  }

  lemma TailSlice(a: bytes, w: bytes, b: bytes, m: nat)
    requires m <= 1 + |b|
    ensures (a + Quoted(w) + b)[|a| + 1 + |w| + m..] == ([QUOTE] + b)[m..]
  {
    assert a + Quoted(w) + b == (a + [QUOTE] + w) + ([QUOTE] + b);
  }

  lemma FoundBefore(a: bytes, q: nat, k: bytes, key: bytes)
    requires IsKey(key) && IsKey(k) && k != key && Around(a, key) && FindFirst(a, Needle(k)) == Some(q)
    ensures var j := FindFirst(a, Needle(key)).value;
            q + |Needle(k)| <= j <= |a| && StartsWith(a[j..], Needle(key))
  {
    hide IsKey, Needle, FindFirst;
    var j := FindFirst(a, Needle(key)).value;
    FoundMeans(a, Needle(k), q);
    FoundMeans(a, Needle(key), j);
    MatchesApart(a, q, k, j, key);
    NeedleBytes(a[q..], k);
  }

  lemma ValueInFront(a: bytes, m: nat, key: bytes, v: bytes)
    requires IsKey(key) && FindFirst(a, Needle(key)).Some? && m <= FindFirst(a, Needle(key)).value
    ensures ValueOf(a[m..] + v) == ValueOf(a[m..])
  {
    hide IsKey, Needle, FindFirst, ValueOf;
    var j := FindFirst(a, Needle(key)).value;
    FoundMeans(a, Needle(key), j);
    assert a[m..][j - m..] == a[j..];
    ValueStays(a[m..], j - m, key, v);
  }

  predicate Vacant(v: Option<bytes>) {
    v == Some([]) || v == Some([ZERO])
  }

  /** A patch takes place exactly when the key reads as empty or zero. */
  lemma PatchTouchesIff(p: bytes, key: bytes, v: bytes)
    ensures Patch(p, key, v).Some? <==> Vacant(Peek(p, key))
  {
    hide FindFirst, Needle, ValueOf, Blanks, StartsWith;
    match FindFirst(p, Needle(key)) {
      case None =>
      case Some(q) =>
        var m := q + |Needle(key)|;
        var n := Blanks(p[m..]);
        assert p[m + n..] == p[m..][n..];
        ValueVacantIff(p[m..]);
    }
  }

  lemma ValueVacantIff(s: bytes)
    ensures var t := s[Blanks(s)..];
            Vacant(ValueOf(s)) <==> StartsWith(t, EMPTY_STRING) || StartsWith(t, ZERO_STRING)
  {
    hide StartsWith, StringEnd, Blanks;
    VacantText(s[Blanks(s)..]);
  }

  lemma VacantText(t: bytes)
    ensures StartsWith(t, EMPTY_STRING) || StartsWith(t, ZERO_STRING) <==> VacantString(t)
  {
    hide StringEnd;
    if StartsWith(t, EMPTY_STRING) || StartsWith(t, ZERO_STRING) { StartsVacant(t); }
    if VacantString(t) { VacantStarts(t); }
  }

  predicate VacantString(t: bytes) {
    t != [] && t[0] == QUOTE && StringEnd(t[1..]).Some? &&
    var w := t[1..1 + StringEnd(t[1..]).value]; w == [] || w == [ZERO]
  }

  lemma StartsVacant(t: bytes)
    requires StartsWith(t, EMPTY_STRING) || StartsWith(t, ZERO_STRING)
    ensures VacantString(t)
  {
    if StartsWith(t, EMPTY_STRING) {
      assert t[1] == t[..2][1] == QUOTE && t[0] == t[..2][0] == QUOTE;
      var u := t[1..];
      assert u[0] == QUOTE;
      assert StringEnd(u) == Some(0);
      assert t[1..1] == [];
    } else {
      assert t[..3][0] == QUOTE && t[..3][1] == ZERO && t[..3][2] == QUOTE;
      assert t[1..][1..] == t[2..];
      assert StringEnd(t[2..]) == Some(0);
      assert t[1..2] == [ZERO];
    }
  }

  lemma VacantStarts(t: bytes)
    requires VacantString(t)
    ensures StartsWith(t, EMPTY_STRING) || StartsWith(t, ZERO_STRING)
  {
    var u := t[1..];
    var n := StringEnd(u).value;
    if n == 0 {
      assert t[..2] == EMPTY_STRING;
    } else {
      assert u[0] == t[1..1 + n][0] == ZERO;
      assert StringEnd(u[1..]) == Some(0);
      assert t[..3] == ZERO_STRING;
    }
  }

  /** One patch: its own key, when vacant, reads as the new value, every other key as before. */
  lemma PatchedReads(p: bytes, key: bytes, v: bytes, k: bytes)
    requires IsKey(key) && IsKey(k) && IsFill(v) && v != [] && v != [ZERO]
    ensures k == key ==> Peek(Patched(p, key, v), k) == if Vacant(Peek(p, k)) then Some(v) else Peek(p, k)
    ensures k != key ==> Peek(Patched(p, key, v), k) == Peek(p, k)
  {
    hide IsKey, Peek, Patch, Around, IsFill;
    PatchTouchesIff(p, key, v);
    if Patch(p, key, v).Some? {
      var a, w, b := PatchShape(p, key, v);
      FillsAre();
      if k == key {
        PeekOwn(a, v, b, key);
      } else {
        PeekOther(a, w, v, b, key, k);
      }
    }
  }

  lemma FillsAre()
    ensures IsFill([]) && IsFill([ZERO]) && IsFill(LAN)
    ensures IsKey(SUBTASK_NAME) && IsKey(PROJECT_ID) && IsKey(PROFILE_ID) && IsKey(TASK_ID) && IsKey(SUBTASK_ID)
    ensures PROJECT_ID != PROFILE_ID && PROJECT_ID != TASK_ID && PROJECT_ID != SUBTASK_ID
    ensures PROFILE_ID != TASK_ID && PROFILE_ID != SUBTASK_ID && TASK_ID != SUBTASK_ID
    ensures SUBTASK_NAME != PROJECT_ID && SUBTASK_NAME != PROFILE_ID && SUBTASK_NAME != TASK_ID
    ensures SUBTASK_NAME != SUBTASK_ID
  {
    assert PROJECT_ID[3] != PROFILE_ID[3];
    assert |SUBTASK_NAME| == 12 && |PROJECT_ID| == 10 && |PROFILE_ID| == 10 && |TASK_ID| == 7 && |SUBTASK_ID| == 10;
    assert SUBTASK_ID[0] != PROJECT_ID[0];
  }

  lemma IdIsFill(name: bytes, version: bytes)
    ensures var id := SyntheticId(name, version); IsFill(id) && |id| == 12
  {
    hide Fnv1a;
  }

  /** What an id reads as once it is filled. */
  function FilledId(was: Option<bytes>, v: bytes): Option<bytes> {
    if Vacant(was) then Some(v) else was
  }

  /** All four patches, read back. */
  lemma PatchAllReads(p: bytes, id: bytes, k: bytes)
    requires IsFill(id) && |id| == 12 && IsKey(k)
    ensures var r := Peek(PatchAll(p, id), k);
            r == if k == PROJECT_ID || k == PROFILE_ID then FilledId(Peek(p, k), LAN)
                 else if k == TASK_ID || k == SUBTASK_ID then FilledId(Peek(p, k), id)
                 else Peek(p, k)
  {
    hide Peek, Patched, IsFill, IsKey, Vacant;
    hide SUBTASK_NAME, PROJECT_ID, PROFILE_ID, TASK_ID, SUBTASK_ID;
    FillsAre();
    var p1 := Patched(p, PROJECT_ID, LAN);
    var p2 := Patched(p1, PROFILE_ID, LAN);
    var p3 := Patched(p2, TASK_ID, id);
    PatchedReads(p, PROJECT_ID, LAN, k);
    PatchedReads(p1, PROFILE_ID, LAN, k);
    PatchedReads(p2, TASK_ID, id, k);
    PatchedReads(p3, SUBTASK_ID, id, k);
  }

  /** What every key reads as afterwards: with a real name a vacant project or profile id is `lan`,
      a vacant task or subtask id the synthetic id, and everything else is as before. */
  lemma RewriteReads(p: bytes, version: bytes, k: bytes)
    requires IsKey(k)
    ensures var name, was := Peek(p, SUBTASK_NAME), Peek(p, k);
            Peek(Rewrite(p, version), k) ==
              if !RealName(name) then was
              else if k == PROJECT_ID || k == PROFILE_ID then FilledId(was, LAN)
              else if k == TASK_ID || k == SUBTASK_ID then FilledId(was, SyntheticId(name.value, version))
              else was
  {
    hide Peek, PatchAll, SyntheticId, IsFill, IsKey, Vacant;
    hide SUBTASK_NAME, PROJECT_ID, PROFILE_ID, TASK_ID, SUBTASK_ID;
    var name := Peek(p, SUBTASK_NAME);
    if RealName(name) {
      IdIsFill(name.value, version);
      PatchAllReads(p, SyntheticId(name.value, version), k);
    }
  }

  /** Rewriting is complete: with a real subtask name none of the four ids reads as empty or
      zero afterwards, and the name still reads as before. */
  lemma RewriteComplete(p: bytes, version: bytes)
    requires RealName(Peek(p, SUBTASK_NAME))
    ensures var r := Rewrite(p, version);
            Peek(r, SUBTASK_NAME) == Peek(p, SUBTASK_NAME) &&
            !Vacant(Peek(r, PROJECT_ID)) && !Vacant(Peek(r, PROFILE_ID)) &&
            !Vacant(Peek(r, TASK_ID)) && !Vacant(Peek(r, SUBTASK_ID))
  {
    hide Peek, Rewrite, SyntheticId, IsKey;
    hide SUBTASK_NAME, PROJECT_ID, PROFILE_ID, TASK_ID, SUBTASK_ID;
    FillsAre();
    IdIsFill(Peek(p, SUBTASK_NAME).value, version);
    RewriteReads(p, version, SUBTASK_NAME);
    RewriteReads(p, version, PROJECT_ID);
    RewriteReads(p, version, PROFILE_ID);
    RewriteReads(p, version, TASK_ID);
    RewriteReads(p, version, SUBTASK_ID);
  }

  /** A second rewrite, whatever its version, changes nothing. */
  lemma RewriteIdempotent(p: bytes, version: bytes, version': bytes)
    ensures Rewrite(Rewrite(p, version), version') == Rewrite(p, version)
  {
    hide Peek, SyntheticId, Vacant, Patch;
    hide SUBTASK_NAME, PROJECT_ID, PROFILE_ID, TASK_ID, SUBTASK_ID;
    if RealName(Peek(p, SUBTASK_NAME)) {
      RewriteComplete(p, version);
      var r := Rewrite(p, version);
      var id := SyntheticId(Peek(p, SUBTASK_NAME).value, version');
      PatchTouchesIff(r, PROJECT_ID, LAN);
      PatchTouchesIff(r, PROFILE_ID, LAN);
      PatchTouchesIff(r, TASK_ID, id);
      PatchTouchesIff(r, SUBTASK_ID, id);
    }
  }

  // ---------- The whole rewrite is local ----------

  /** A text with values standing in its gaps. */
  function Filled(gaps: seq<bytes>, vals: seq<bytes>): bytes
    requires |gaps| == |vals| + 1
    decreases |vals|
  {
    if vals == [] then gaps[0] else gaps[0] + Quoted(vals[0]) + Filled(gaps[1..], vals[1..])
  }

  /** Text that ends in a key, the colon behind it and blanks: the key's value follows. */
  ghost predicate LedBy(a: bytes, key: bytes) {
    exists j: nat :: KeyAt(a, key, j)
  }

  ghost predicate KeyAt(a: bytes, key: bytes, j: nat) {
    j + |key| + 2 <= |a| && a[j..j + |key|] == key && a[j + |key|] == QUOTE && a[j + |key| + 1] == COLON &&
    forall i :: j + |key| + 2 <= i < |a| ==> a[i] == BLANK
  }

  /** The four keys that a rewrite may touch. */
  ghost predicate IsId(k: bytes) {
    k == PROJECT_ID || k == PROFILE_ID || k == TASK_ID || k == SUBTASK_ID
  }

  lemma IdsAre(k: bytes)
    requires IsId(k)
    ensures IsKey(k) && UNDERSCORE in k
  {
    FillsAre();
    assert PROJECT_ID[7] == PROFILE_ID[7] == TASK_ID[4] == SUBTASK_ID[7] == UNDERSCORE;
  }

  ghost predicate IsNew(v: bytes) {
    v != [] && v[0] == 108 &&
    forall i :: 0 <= i < |v| ==> v[i] != QUOTE && v[i] != COLON && v[i] != BLANK && v[i] != UNDERSCORE
  }

  ghost predicate IsVacant(w: bytes) {
    w == [] || w == [ZERO]
  }

  /** The value that fills a vacant id. */
  function ValueFor(key: bytes, id: bytes): bytes {
    if key == PROJECT_ID || key == PROFILE_ID then LAN else id
  }

  ghost predicate Fits(key: bytes, w: bytes, v: bytes, id: bytes) {
    IsId(key) && IsVacant(w) && IsNew(v) && v == ValueFor(key, id)
  }

  /** `q` is `p` with the vacant values of `keys`, none overlapping another, exchanged for the new
      ones; the gaps between them stay, and each value stands behind its key. */
  ghost predicate Exchanges(p: bytes, q: bytes, id: bytes, gaps: seq<bytes>, keys: seq<bytes>, olds: seq<bytes>,
                            news: seq<bytes>)
  {
    |gaps| == |keys| + 1 == |olds| + 1 == |news| + 1 &&
    (forall i :: 0 <= i < |keys| ==> LedBy(gaps[i], keys[i]) && Fits(keys[i], olds[i], news[i], id)) &&
    p == Filled(gaps, olds) && q == Filled(gaps, news)
  }

  /** A key behind which a value stands lies behind any quotes that close in front of it. */
  lemma KeyBehind(t: bytes, open: nat, close: nat, key: bytes, j: nat)
    requires KeyAt(t, key, j) && IsKey(key) && UNDERSCORE in key
    requires open < close < |t| && t[open] == QUOTE && t[close] == QUOTE
    requires forall i :: open < i < close ==> t[i] != UNDERSCORE
    ensures close < j
  {
    var e := j + |key|;
    var u :| 0 <= u < |key| && key[u] == UNDERSCORE;
    assert forall i :: 0 <= i < |key| ==> t[j + i] == t[j..e][i] == key[i];
    assert t[j + u] == UNDERSCORE;
    assert forall i :: j <= i < |t| && t[i] == QUOTE ==> i == e by {
      assert forall i :: j <= i < e ==> t[i] == key[i - j];
    }
  }

  /** So a value cut off with its quotes leaves the key whole. */
  lemma LeadStays(h: bytes, x: bytes, y: bytes, key: bytes)
    requires LedBy(h + Quoted(x) + y, key) && IsKey(key) && UNDERSCORE in key && y != []
    requires forall i :: 0 <= i < |x| ==> x[i] != UNDERSCORE
    ensures LedBy(y, key)
  {
    hide IsKey;
    var t, c := h + Quoted(x) + y, |h| + |x| + 1;
    var j: nat :| KeyAt(t, key, j);
    assert forall i :: |h| < i < c ==> t[i] == x[i - |h| - 1];
    KeyBehind(t, |h|, c, key, j);
    assert t[c + 1..] == y;
    assert y[j - c - 1..j - c - 1 + |key|] == t[j..j + |key|];
    assert KeyAt(y, key, j - c - 1);
  }

  lemma LedOpens(a: bytes, key: bytes)
    requires LedBy(a, key)
    ensures a != [] && (a[|a| - 1] == COLON || a[|a| - 1] == BLANK)
  {
    var j: nat :| KeyAt(a, key, j);
  }

  lemma FilledHead(g: bytes, v: bytes, gaps: seq<bytes>, vals: seq<bytes>)
    requires |gaps| == |vals| + 1
    ensures Filled([g] + gaps, [v] + vals) == g + Quoted(v) + Filled(gaps, vals)
  {
    assert ([g] + gaps)[1..] == gaps && ([v] + vals)[1..] == vals;
  }

  /** A vacant value behind a key stands clear of the first new value. */
  lemma StandsClear(h: bytes, k: bytes, n: bytes, rest: bytes, a: bytes, key: bytes, w: bytes, b: bytes)
    requires LedBy(h, k) && IsNew(n) && LedBy(a, key) && IsVacant(w)
    requires h + Quoted(n) + rest == a + Quoted(w) + b
    ensures |a| + |w| + 2 < |h| || |h| + |n| + 2 < |a|
  {
    LedOpens(h, k);
    LedOpens(a, key);
    var t := h + Quoted(n) + rest;
    var i, m := |a|, |h| + |n| + 1;
    assert t[i - 1] == a[i - 1] && t[|h| - 1] == h[|h| - 1];
    assert t[i] == QUOTE && t[i + 1] == (if w == [] then QUOTE else ZERO) && t[i + |w| + 1] == QUOTE;
    assert t[|h|] == QUOTE && t[|h| + 1] == n[0] && t[m] == QUOTE;
    assert forall u :: |h| < u < m ==> t[u] == n[u - |h| - 1];
    assert forall u :: |h| <= u <= m ==> t[u] != COLON && t[u] != BLANK;
    assert forall u :: i <= u <= i + |w| + 1 ==> t[u] != COLON && t[u] != BLANK;
  }

  /** One more exchange, in the first gap. */
  lemma ExchangeFront(id: bytes, gaps: seq<bytes>, keys: seq<bytes>, olds: seq<bytes>, news: seq<bytes>,
                      a: bytes, key: bytes, w: bytes, v: bytes, y: bytes)
    returns (gaps': seq<bytes>, keys': seq<bytes>, olds': seq<bytes>, news': seq<bytes>)
    requires |gaps| == |keys| + 1 == |olds| + 1 == |news| + 1 && LedBy(a, key) && Fits(key, w, v, id)
    requires forall i :: 0 <= i < |keys| ==> LedBy(gaps[i], keys[i]) && Fits(keys[i], olds[i], news[i], id)
    requires gaps[0] == a + Quoted(w) + y && (keys != [] ==> LedBy(y, keys[0]))
    ensures multiset(keys') == multiset(keys) + multiset{key}
    ensures Exchanges(Filled(gaps, olds), a + Quoted(v) + Filled([y] + gaps[1..], news), id, gaps', keys', olds', news')
  {
    hide LedBy, Fits, Quoted;
    var more := [y] + gaps[1..];
    gaps', keys', olds', news' := [a] + more, [key] + keys, [w] + olds, [v] + news;
    FilledHead(a, w, more, olds);
    FilledHead(a, v, more, news);
    FrontGap(gaps, olds, a + Quoted(w), y);
  }

  /** Text in front of the first gap stays in front. */
  lemma FrontGap(gaps: seq<bytes>, vals: seq<bytes>, x: bytes, y: bytes)
    requires |gaps| == |vals| + 1 && gaps[0] == x + y
    ensures Filled(gaps, vals) == x + Filled([y] + gaps[1..], vals)
  {
    hide Quoted;
    var more := [y] + gaps[1..];
    if vals != [] {
      assert more[1..] == gaps[1..];
      Regroup(x, y, Quoted(vals[0]), Filled(gaps[1..], vals[1..]));
    }
  }

  /** One more exchange, in a gap between those already made. */
  lemma {:induction false} ExchangeOne(id: bytes, gaps: seq<bytes>, keys: seq<bytes>, olds: seq<bytes>,
                                       news: seq<bytes>, a: bytes, key: bytes, w: bytes, v: bytes, b: bytes)
    returns (gaps': seq<bytes>, keys': seq<bytes>, olds': seq<bytes>, news': seq<bytes>)
    requires |gaps| == |olds| + 1
    requires Exchanges(Filled(gaps, olds), a + Quoted(w) + b, id, gaps, keys, olds, news)
    requires LedBy(a, key) && Fits(key, w, v, id)
    ensures Exchanges(Filled(gaps, olds), a + Quoted(v) + b, id, gaps', keys', olds', news')
    ensures multiset(keys') == multiset(keys) + multiset{key}
    decreases |olds|
  {
    hide Fits, Quoted, LedBy;
    if olds == [] {
      assert [b] + gaps[1..] == [b];
      gaps', keys', olds', news' := ExchangeFront(id, gaps, keys, olds, news, a, key, w, v, b);
    } else {
      var h, n := gaps[0], news[0];
      var rest := Filled(gaps[1..], news[1..]);
      FitsApart(h, keys[0], olds[0], n, rest, a, key, w, v, b, id);
      if |a| + |w| + 2 < |h| {
        var y := CutFront(h, keys[0], Quoted(n) + rest, a, w, b);
        gaps', keys', olds', news' := ExchangeFront(id, gaps, keys, olds, news, a, key, w, v, y);
        FilledHead(y, n, gaps[1..], news[1..]);
        assert [n] + news[1..] == news;
        Joined(y, Quoted(n), rest);
      } else {
        var a2 := CutBehind(h, n, rest, a, key, w, b);
        var g2, k2, o2, n2 := ExchangeOne(id, gaps[1..], keys[1..], olds[1..], news[1..], a2, key, w, v, b);
        gaps', keys', olds', news' := [h] + g2, [keys[0]] + k2, [olds[0]] + o2, [n] + n2;
        assert keys == [keys[0]] + keys[1..];
        FilledHead(h, olds[0], g2, o2);
        FilledHead(h, n, g2, n2);
        Regroup(h + Quoted(n), a2, Quoted(v), b);
      }
    }
  }

  /** Which side of the first new value a vacant one stands on. */
  lemma FitsApart(h: bytes, k: bytes, o: bytes, n: bytes, rest: bytes,
                  a: bytes, key: bytes, w: bytes, v: bytes, b: bytes, id: bytes)
    requires LedBy(h, k) && Fits(k, o, n, id) && LedBy(a, key) && Fits(key, w, v, id)
    requires h + Quoted(n) + rest == a + Quoted(w) + b
    ensures |a| + |w| + 2 < |h| || |h| + |n| + 2 < |a|
    ensures IsId(k) && IsId(key) && IsVacant(w) && IsNew(n)
  {
    hide LedBy, IsNew, IsVacant, Quoted;
    StandsClear(h, k, n, rest, a, key, w, b);
  }

  lemma Regroup(a: bytes, b: bytes, c: bytes, d: bytes)
    ensures a + (b + c + d) == a + b + c + d
  {
  }

  lemma CutFront(h: bytes, k: bytes, more: bytes, a: bytes, w: bytes, b: bytes) returns (y: bytes)
    requires h + more == a + Quoted(w) + b && |a| + |w| + 2 < |h| && LedBy(h, k) && IsId(k) && IsVacant(w)
    ensures h == a + Quoted(w) + y && b == y + more && LedBy(y, k)
  {
    hide LedBy, IsId;
    var t, m := h + more, |a| + |w| + 2;
    y := h[m..];
    assert t[..m] == a + Quoted(w) && t[m..] == b;
    assert h[..m] == t[..m] && t[m..] == y + more;
    IdsAre(k);
    assert h == a + Quoted(w) + y;
    LeadStays(a, w, y, k);
  }

  lemma CutBehind(h: bytes, n: bytes, rest: bytes, a: bytes, key: bytes, w: bytes, b: bytes) returns (a2: bytes)
    requires h + Quoted(n) + rest == a + Quoted(w) + b && |h| + |n| + 2 < |a| && LedBy(a, key) && IsId(key) && IsNew(n)
    ensures a == h + Quoted(n) + a2 && rest == a2 + Quoted(w) + b && LedBy(a2, key)
  {
    hide LedBy, IsId;
    var t, m := h + Quoted(n) + rest, |h| + |n| + 2;
    a2 := a[m..];
    assert t[..m] == h + Quoted(n) && t[m..] == rest;
    assert a[..m] == t[..m] && t[m..] == a2 + (Quoted(w) + b);
    IdsAre(key);
    assert a == h + Quoted(n) + a2;
    LeadStays(h, n, a2, key);
  }

  /** The value of the first match stands behind its key. */
  lemma AroundLed(a: bytes, key: bytes)
    requires Around(a, key)
    ensures LedBy(a, key)
  {
    hide FindFirst, Needle;
    var j := FindFirst(a, Needle(key)).value;
    FoundMeans(a, Needle(key), j);
    NeedleBytes(a[j..], key);
    var m := j + |key| + 3;
    assert |Needle(key)| == |key| + 3 by { NeedleLength(key); }
    assert forall i :: m <= i < |a| ==> a[i] == a[m..][i - m];
    assert a[j + 1..j + 1 + |key|] == key by {
      assert forall i :: 0 <= i < |key| ==> a[j + 1 + i] == a[j..][1 + i] == key[i];
    }
    assert a[j + |key| + 1] == a[j..][|key| + 1] && a[j + |key| + 2] == a[j..][|key| + 2];
    assert KeyAt(a, key, j + 1);
  }

  lemma NeedleLength(key: bytes)
    ensures |Needle(key)| == |key| + 3
  {
  }

  lemma PatchExchanges(p: bytes, q: bytes, key: bytes, id: bytes,
                       gaps: seq<bytes>, keys: seq<bytes>, olds: seq<bytes>, news: seq<bytes>)
    returns (gaps': seq<bytes>, keys': seq<bytes>, olds': seq<bytes>, news': seq<bytes>)
    requires IsId(key) && IsNew(ValueFor(key, id)) && Exchanges(p, q, id, gaps, keys, olds, news)
    ensures Exchanges(p, Patched(q, key, ValueFor(key, id)), id, gaps', keys', olds', news')
    ensures multiset(keys') ==
            multiset(keys) + if Patch(q, key, ValueFor(key, id)).Some? then multiset{key} else multiset{}
  {
    hide IsId, IsNew, Exchanges, Patch, LedBy, ValueFor;
    var v := ValueFor(key, id);
    if Patch(q, key, v).Some? {
      IdsAre(key);
      var a, w, b := PatchShape(q, key, v);
      AroundLed(a, key);
      FilledOlds(p, q, id, gaps, keys, olds, news);
      gaps', keys', olds', news' := ExchangeOne(id, gaps, keys, olds, news, a, key, w, v, b);
    } else {
      gaps', keys', olds', news' := gaps, keys, olds, news;
    }
  }

  lemma FilledOlds(p: bytes, q: bytes, id: bytes,
                   gaps: seq<bytes>, keys: seq<bytes>, olds: seq<bytes>, news: seq<bytes>)
    requires Exchanges(p, q, id, gaps, keys, olds, news)
    ensures |gaps| == |olds| + 1 && p == Filled(gaps, olds)
  {
  }

  /** The ids that read as empty or zero. */
  function VacantIds(p: bytes): multiset<bytes> {
    (if Vacant(Peek(p, PROJECT_ID)) then multiset{PROJECT_ID} else multiset{}) +
    (if Vacant(Peek(p, PROFILE_ID)) then multiset{PROFILE_ID} else multiset{}) +
    (if Vacant(Peek(p, TASK_ID)) then multiset{TASK_ID} else multiset{}) +
    (if Vacant(Peek(p, SUBTASK_ID)) then multiset{SUBTASK_ID} else multiset{})
  }

  lemma PatchAllLocal(p: bytes, id: bytes)
    returns (gaps: seq<bytes>, keys: seq<bytes>, olds: seq<bytes>, news: seq<bytes>)
    requires IsNew(id) && IsFill(id) && |id| == 12
    ensures Exchanges(p, PatchAll(p, id), id, gaps, keys, olds, news) && multiset(keys) == VacantIds(p)
  {
    hide Peek, Patched, Patch, IsKey, IsFill, IsNew, Vacant, Exchanges;
    hide PROJECT_ID, PROFILE_ID, TASK_ID, SUBTASK_ID;
    gaps, keys, olds, news := [p], [], [], [];
    NoneExchanged(p, id);
    FillsAre();
    LanIsNew();
    PatchesTouchIff(p, id);
    var p1 := Patched(p, PROJECT_ID, LAN);
    var p2 := Patched(p1, PROFILE_ID, LAN);
    var p3 := Patched(p2, TASK_ID, id);
    gaps, keys, olds, news := PatchExchanges(p, p, PROJECT_ID, id, gaps, keys, olds, news);
    gaps, keys, olds, news := PatchExchanges(p, p1, PROFILE_ID, id, gaps, keys, olds, news);
    gaps, keys, olds, news := PatchExchanges(p, p2, TASK_ID, id, gaps, keys, olds, news);
    gaps, keys, olds, news := PatchExchanges(p, p3, SUBTASK_ID, id, gaps, keys, olds, news);
  }

  lemma NoneExchanged(p: bytes, id: bytes)
    ensures Exchanges(p, p, id, [p], [], [], [])
  {
  }

  /** With a real name the rewrite exchanges the value of every vacant id, each standing behind its
      key and none overlapping another: `lan` for project and profile, the synthetic id for task
      and subtask. Every byte outside these values stays as it is. */
  lemma RewriteLocal(p: bytes, version: bytes)
    returns (gaps: seq<bytes>, keys: seq<bytes>, olds: seq<bytes>, news: seq<bytes>)
    ensures var name := Peek(p, SUBTASK_NAME);
            if RealName(name) then
              Exchanges(p, Rewrite(p, version), SyntheticId(name.value, version), gaps, keys, olds, news) &&
              multiset(keys) == VacantIds(p)
            else Rewrite(p, version) == p
  {
    hide Peek, PatchAll, SyntheticId, IsFill, IsNew, Exchanges, VacantIds;
    gaps, keys, olds, news := [], [], [], [];
    var name := Peek(p, SUBTASK_NAME);
    if RealName(name) {
      IdIsNew(name.value, version);
      IdIsFill(name.value, version);
      gaps, keys, olds, news := PatchAllLocal(p, SyntheticId(name.value, version));
    }
  }

  lemma LanIsNew()
    ensures IsNew(LAN)
  {
  }

  lemma IdIsNew(name: bytes, version: bytes)
    ensures IsNew(SyntheticId(name, version))
  {
    hide Fnv1a;
    var keyed := if version == [] then name else name + [1] + version;
    var h := Fnv1a(keyed, 2166136261);
    HexIsNew(h / 65536);
    HexIsNew(h % 65536);
    var id := SyntheticId(name, version);
    assert id == LAN_DASH + (R.HexDigits4(h / 65536) + R.HexDigits4(h % 65536));
  }

  lemma HexIsNew(n: nat)
    requires n < 0x10000
    ensures forall i :: 0 <= i < 4 ==>
              R.HexDigits4(n)[i] != QUOTE && R.HexDigits4(n)[i] != COLON && R.HexDigits4(n)[i] != BLANK &&
              R.HexDigits4(n)[i] != UNDERSCORE
  {
  }

  // ---------- The functions as they run ----------

  method JsonPeekStringField(payload: bytes, key: bytes) returns (r: Option<bytes>)
    ensures r == Peek(payload, key)
  {
    hide FindFirst, Blanks, StringEnd, ValueOf;
    var needle := Needle(key);
    var found := FindFirst(payload, needle);
    if found == None { return None; }
    var from := found.value + |needle|;
    var pos := SkipBlanks(payload, from);
    ValueAt(payload, from);
    if pos >= |payload| || payload[pos] != QUOTE { return None; }
    r := ScanString(payload, pos + 1);
  }

  lemma ValueAt(payload: bytes, from: nat)
    requires from <= |payload|
    ensures var pos := from + Blanks(payload[from..]);
            ValueOf(payload[from..]) ==
              if pos >= |payload| || payload[pos] != QUOTE then None
              else match StringEnd(payload[pos + 1..])
                case None => None
                case Some(n) => Some(payload[pos + 1..pos + 1 + n])
  {
    hide Blanks, StringEnd;
    var pos := from + Blanks(payload[from..]);
    var t := payload[pos..];
    assert payload[from..][pos - from..] == t;
    if pos < |payload| {
      assert t[1..] == payload[pos + 1..];
      if StringEnd(t[1..]).Some? {
        var n := StringEnd(t[1..]).value;
        assert t[1..1 + n] == payload[pos + 1..pos + 1 + n];
      }
    }
  }

  method SkipBlanks(payload: bytes, from: nat) returns (pos: nat)
    requires from <= |payload|
    ensures pos == from + Blanks(payload[from..])
  {
    pos := from;
    while pos < |payload| && payload[pos] == BLANK
      invariant from <= pos <= |payload|
      invariant pos + Blanks(payload[pos..]) == from + Blanks(payload[from..])
    {
      assert payload[pos..][1..] == payload[pos + 1..];
      pos := pos + 1;
    }
  }

  lemma StringEndStep(payload: bytes, end: nat, step: nat)
    requires end < |payload| && payload[end] != QUOTE
    requires step == if payload[end] == BACKSLASH && end + 1 < |payload| then 2 else 1
    ensures StringEnd(payload[end..]) ==
            match StringEnd(payload[end + step..])
            case None => None
            case Some(n) => Some(n + step)
  {
    assert payload[end..][step..] == payload[end + step..];
  }

  lemma StringEndHere(payload: bytes, end: nat)
    requires end <= |payload| && (end < |payload| ==> payload[end] == QUOTE)
    ensures StringEnd(payload[end..]) == if end < |payload| then Some(0) else None
  {
  }

  method ScanString(payload: bytes, start: nat) returns (r: Option<bytes>)
    requires start <= |payload|
    ensures r == match StringEnd(payload[start..])
                 case None => None
                 case Some(n) => Some(payload[start..start + n])
  {
    hide StringEnd;
    var end := start;
    while end < |payload| && payload[end] != QUOTE
      invariant start <= end <= |payload|
      invariant StringEnd(payload[start..]) ==
                match StringEnd(payload[end..])
                case None => None
                case Some(n) => Some(n + end - start)
      decreases |payload| - end
    {
      var step := if payload[end] == BACKSLASH && end + 1 < |payload| then 2 else 1;
      StringEndStep(payload, end, step);
      end := end + step;
    }
    StringEndHere(payload, end);
    if end >= |payload| { return None; }
    return Some(payload[start..end]);
  }

  method PatchStringZeroTo(payload: bytes, key: bytes, value: bytes) returns (p: bytes, touched: bool)
    ensures p == Patched(payload, key, value) && touched == Patch(payload, key, value).Some?
  {
    hide FindFirst, Blanks, StartsWith, Needle;
    var needle := Needle(key);
    var found := FindFirst(payload, needle);
    if found == None { return payload, false; }
    var i := SkipBlanks(payload, found.value + |needle|);
    ReplaceText(payload, i);
    if i + 2 > |payload| || payload[i] != QUOTE { return payload, false; }
    if payload[i + 1] == QUOTE {
      return payload[..i] + Quoted(value) + payload[i + 2..], true;
    }
    if i + 3 <= |payload| && payload[i + 1] == ZERO && payload[i + 2] == QUOTE {
      return payload[..i] + Quoted(value) + payload[i + 3..], true;
    }
    return payload, false;
  }

  lemma ReplaceText(s: bytes, i: nat)
    requires i <= |s|
    ensures StartsWith(s[i..], EMPTY_STRING) <==> i + 2 <= |s| && s[i] == QUOTE && s[i + 1] == QUOTE
    ensures StartsWith(s[i..], ZERO_STRING) <==>
            i + 3 <= |s| && s[i] == QUOTE && s[i + 1] == ZERO && s[i + 2] == QUOTE
  {
    var t := s[i..];
    if |t| >= 2 { assert t[..2] == [s[i], s[i + 1]]; }
    if |t| >= 3 { assert t[..3] == [s[i], s[i + 1], s[i + 2]]; }
  }

  method TryRewritePrintIds(payload: bytes, version: bytes) returns (p: bytes, touched: bool)
    ensures p == Rewrite(payload, version) && (!touched ==> p == payload)
    ensures touched <==>
            RealName(Peek(payload, SUBTASK_NAME)) &&
            (Vacant(Peek(payload, PROJECT_ID)) || Vacant(Peek(payload, PROFILE_ID)) ||
             Vacant(Peek(payload, TASK_ID)) || Vacant(Peek(payload, SUBTASK_ID)))
  {
    hide Peek, Patch, SyntheticId, IsFill, Vacant, LAN, PROJECT_ID, PROFILE_ID, TASK_ID, SUBTASK_ID, SUBTASK_NAME;
    var name := JsonPeekStringField(payload, SUBTASK_NAME);
    if name == None { return payload, false; }
    if name.value == [] || name.value == MINUS_ONE { return payload, false; }
    var id := SyntheticId(name.value, version);
    var t0, t1, t2, t3;
    p, t0 := PatchStringZeroTo(payload, PROJECT_ID, LAN);
    p, t1 := PatchStringZeroTo(p, PROFILE_ID, LAN);
    p, t2 := PatchStringZeroTo(p, TASK_ID, id);
    p, t3 := PatchStringZeroTo(p, SUBTASK_ID, id);
    IdIsFill(name.value, version);
    PatchesTouchIff(payload, id);
    touched := t0 || t1 || t2 || t3;
  }

  /** Each of the four patches happens exactly when its own key was vacant to begin with. */
  lemma PatchesTouchIff(p: bytes, id: bytes)
    requires IsFill(id) && |id| == 12
    ensures var p1 := Patched(p, PROJECT_ID, LAN);
            var p2 := Patched(p1, PROFILE_ID, LAN);
            var p3 := Patched(p2, TASK_ID, id);
            (Patch(p, PROJECT_ID, LAN).Some? <==> Vacant(Peek(p, PROJECT_ID))) &&
            (Patch(p1, PROFILE_ID, LAN).Some? <==> Vacant(Peek(p, PROFILE_ID))) &&
            (Patch(p2, TASK_ID, id).Some? <==> Vacant(Peek(p, TASK_ID))) &&
            (Patch(p3, SUBTASK_ID, id).Some? <==> Vacant(Peek(p, SUBTASK_ID)))
  {
    hide Peek, Patch, Patched, IsFill, IsKey, Vacant;
    hide SUBTASK_NAME, PROJECT_ID, PROFILE_ID, TASK_ID, SUBTASK_ID;
    FillsAre();
    var p1 := Patched(p, PROJECT_ID, LAN);
    var p2 := Patched(p1, PROFILE_ID, LAN);
    var p3 := Patched(p2, TASK_ID, id);
    PatchTouchesIff(p, PROJECT_ID, LAN);
    PatchTouchesIff(p1, PROFILE_ID, LAN);
    PatchTouchesIff(p2, TASK_ID, id);
    PatchTouchesIff(p3, SUBTASK_ID, id);
    PatchedReads(p, PROJECT_ID, LAN, PROFILE_ID);
    PatchedReads(p, PROJECT_ID, LAN, TASK_ID);
    PatchedReads(p, PROJECT_ID, LAN, SUBTASK_ID);
    PatchedReads(p1, PROFILE_ID, LAN, TASK_ID);
    PatchedReads(p1, PROFILE_ID, LAN, SUBTASK_ID);
    PatchedReads(p2, TASK_ID, id, SUBTASK_ID);
  }
}
