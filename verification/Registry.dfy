/**
 The LAN TLS registry (src/lan_tls.cpp, include/obn/lan_tls_env.hpp): printer serials and peer
 certificates in two maps, mirrored into the process environment and into a state file from
 which another library in the process refills its environment.
 */
module Registry {
  import opened Bytes

  const LF: byte := 10
  const EQUALS: byte := 61
  const HASH: byte := 35
  const DOT: byte := 46
  const UNDERSCORE: byte := 95
  const IPC_PREFIX: bytes := [79, 66, 78, 95, 76, 65, 78, 95, 84, 76, 83, 95]           // OBN_LAN_TLS_
  const CA_KEY: bytes := IPC_PREFIX + [67, 65, 95, 70, 73, 76, 69]                      // CA_FILE
  const IP_PREFIX: bytes := IPC_PREFIX + [73, 80, 95]                                   // IP_
  const PEER_PREFIX: bytes := IPC_PREFIX + [80, 69, 69, 82, 95]                         // PEER_
  const CONFIG_DIR_KEY: bytes := [79, 66, 78, 95, 67, 79, 78, 70, 73, 71, 95, 68, 73, 82] // OBN_CONFIG_DIR
  // # Open Bamboo Networking LAN TLS IPC (auto-generated)
  const HEADER_1: bytes := [35, 32, 79, 112, 101, 110, 32, 66, 97, 109, 98, 111, 111, 32]
  const HEADER_2: bytes := [78, 101, 116, 119, 111, 114, 107, 105, 110, 103, 32, 76, 65, 78]
  const HEADER_3: bytes := [32, 84, 76, 83, 32, 73, 80, 67, 32, 40, 97, 117, 116, 111]
  const HEADER_4: bytes := [45, 103, 101, 110, 101, 114, 97, 116, 101, 100, 41]
  const HEADER: bytes := HEADER_1 + HEADER_2 + HEADER_3 + HEADER_4

  function KeyTail(ip: bytes): bytes {
    seq(|ip|, i requires 0 <= i < |ip| => if ip[i] == DOT then UNDERSCORE else ip[i])
  }

  function IpKey(ip: bytes): bytes { IP_PREFIX + KeyTail(ip) }

  function PeerKey(ip: bytes): bytes { PEER_PREFIX + KeyTail(ip) }

  datatype Reg = Reg(ca: bytes, serials: map<bytes, bytes>, peers: map<bytes, bytes>)

  type Env = map<bytes, bytes>

  /** `getenv`, with an empty value read as none. */
  function Get(env: Env, key: bytes): bytes {
    if key in env then env[key] else []
  }

  /** The registry, its directory, the environment, and the state file of each directory. */
  datatype State = State(dir: bytes, reg: Reg, env: Env, files: map<bytes, bytes>)

  // ---------- The state file ----------

  datatype Entry = Entry(key: bytes, val: bytes)

  ghost predicate EntryOf(reg: Reg, e: Entry) {
    (reg.ca != [] && e == Entry(CA_KEY, reg.ca)) ||
    (exists ip :: ip in reg.serials && reg.serials[ip] != [] && e == Entry(IpKey(ip), reg.serials[ip])) ||
    (exists ip :: ip in reg.peers && reg.peers[ip] != [] && e == Entry(PeerKey(ip), reg.peers[ip]))
  }

  function Line(e: Entry): bytes {
    e.key + [EQUALS] + e.val + [LF]
  }

  function Body(es: seq<Entry>): bytes {
    if es == [] then [] else Line(es[0]) + Body(es[1..])
  }

  /** The file's text: a comment line, then one line per entry, in the order of the maps, which is
      unspecified. */
  function Render(es: seq<Entry>): bytes {
    HEADER + [LF] + Body(es)
  }

  ghost predicate Lists(es: seq<Entry>, reg: Reg) {
    forall e :: e in es <==> EntryOf(reg, e)
  }

  ghost predicate Renders(text: bytes, reg: Reg) {
    exists es :: Lists(es, reg) && text == Render(es)
  }

  // ---------- Reading the file back ----------

  function Find(s: bytes, c: byte): (r: Option<nat>)
    ensures r.Some? ==> r.value < |s| && s[r.value] == c
  {
    if s == [] then None
    else if s[0] == c then Some(0)
    else match Find(s[1..], c)
      case None => None
      case Some(n) => Some(n + 1)
  }

  predicate IsIpcKey(key: bytes) {
    |IPC_PREFIX| <= |key| && key[..|IPC_PREFIX|] == IPC_PREFIX
  }

  /** `apply_state_line` */
  function ApplyLine(env: Env, line: bytes): Env {
    if line == [] || line[0] == HASH then env
    else match Find(line, EQUALS)
      case None => env
      case Some(n) =>
        var key := line[..n];
        if n == 0 || (key != CONFIG_DIR_KEY && !IsIpcKey(key)) then env
        else env[key := line[n + 1..]]
  }

  /** The getline loop of `hydrate_env_from_state_file_once`. */
  function Hydrate(env: Env, text: bytes): Env
    decreases |text|
  {
    if text == [] then env
    else match Find(text, LF)
      case None => ApplyLine(env, text)
      case Some(n) => Hydrate(ApplyLine(env, text[..n]), text[n + 1..])
  }

  function ApplyEntries(env: Env, es: seq<Entry>): Env
    decreases |es|
  {
    if es == [] then env else ApplyEntries(env[es[0].key := es[0].val], es[1..])
  }

  ghost predicate Free(s: bytes, c: byte) {
    forall i :: 0 <= i < |s| ==> s[i] != c
  }

  ghost predicate ValidEntry(e: Entry) {
    KeyValid(e.key) && Free(e.val, LF)
  }

  lemma {:induction false} FindAt(s: bytes, c: byte, n: nat)
    requires n < |s| && s[n] == c && Free(s[..n], c)
    ensures Find(s, c) == Some(n)
    decreases n
  {
    if n > 0 {
      assert s[0] == s[..n][0];
      assert s[1..][..n - 1] == s[..n][1..];
      FindAt(s[1..], c, n - 1);
    }
  }

  lemma EntryLine(env: Env, e: Entry)
    requires ValidEntry(e)
    ensures ApplyLine(env, e.key + [EQUALS] + e.val) == env[e.key := e.val]
  {
    var line := e.key + [EQUALS] + e.val;
    assert line[..|e.key|] == e.key && line[|e.key| + 1..] == e.val;
    FindAt(line, EQUALS, |e.key|);
    assert line[0] == e.key[..|IPC_PREFIX|][0] == IPC_PREFIX[0];
  }

  lemma {:induction false} BodyHydrates(env: Env, es: seq<Entry>)
    requires forall i :: 0 <= i < |es| ==> ValidEntry(es[i])
    ensures Hydrate(env, Body(es)) == ApplyEntries(env, es)
    decreases |es|
  {
    hide ApplyLine, IsIpcKey;
    if es != [] {
      var e := es[0];
      var line := e.key + [EQUALS] + e.val;
      var text := Body(es);
      assert text == line + [LF] + Body(es[1..]);
      assert text[..|line|] == line && text[|line| + 1..] == Body(es[1..]);
      assert Free(line, LF);
      FindAt(text, LF, |line|);
      EntryLine(env, e);
      BodyHydrates(env[e.key := e.val], es[1..]);
    }
  }

  /** Applying the lines of a rendered file, one by one, sets exactly the entries. */
  lemma RenderHydrates(env: Env, es: seq<Entry>)
    requires forall i :: 0 <= i < |es| ==> ValidEntry(es[i])
    ensures Hydrate(env, Render(es)) == ApplyEntries(env, es)
  {
    hide Hydrate, Body, HEADER;
    HeaderIsComment();
    var text := Render(es);
    assert text[..|HEADER|] == HEADER && text[|HEADER| + 1..] == Body(es);
    FindAt(text, LF, |HEADER|);
    HydrateStep(env, text, |HEADER|);
    BodyHydrates(env, es);
  }

  lemma HeaderIsComment()
    ensures HEADER != [] && HEADER[0] == HASH && Free(HEADER, LF)
  {
    assert Free(HEADER_1, LF);
    assert Free(HEADER_2, LF);
    assert Free(HEADER_3, LF);
    assert Free(HEADER_4, LF);
    hide HEADER_2, HEADER_3, HEADER_4;
  }

  lemma HydrateStep(env: Env, text: bytes, n: nat)
    requires n < |text| && Find(text, LF) == Some(n) && n > 0 && text[0] == HASH
    ensures Hydrate(env, text) == Hydrate(env, text[n + 1..])
  {
  }

  /** A key answers the value of one of its entries, or what it answered before when it has none. */
  lemma {:induction false} AppliedEntries(env: Env, es: seq<Entry>, k: bytes)
    ensures var v := Get(ApplyEntries(env, es), k);
            if exists e :: e in es && e.key == k then Entry(k, v) in es else v == Get(env, k)
    decreases |es|
  {
    if es != [] {
      AppliedEntries(env[es[0].key := es[0].val], es[1..], k);
      if e :| e in es && e.key == k {
        if e != es[0] { assert e in es[1..]; }
        if es[0].key == k && !exists e' :: e' in es[1..] && e'.key == k {
          assert es[0] == Entry(k, es[0].val);
        }
      }
    }
  }

  // ---------- Registry calls ----------

  /** Every write of the state file succeeds; `text` is the rendering it leaves behind. */
  function Write(s: State, text: bytes): State {
    if s.dir == [] then s else s.(files := s.files[s.dir := text])
  }

  function SetCa(s: State, path: bytes, text: bytes): State {
    if s.reg.ca == path then s
    else Write(s.(reg := s.reg.(ca := path), env := s.env[CA_KEY := path]), text)
  }

  function PutSerial(s: State, ip: bytes, serial: bytes, text: bytes): State {
    if ip == [] || serial == [] || (ip in s.reg.serials && s.reg.serials[ip] == serial) then s
    else Write(s.(reg := s.reg.(serials := s.reg.serials[ip := serial]), env := s.env[IpKey(ip) := serial]), text)
  }

  function SetPeer(s: State, ip: bytes, path: bytes, text: bytes): State {
    if ip == [] then s
    else if path == [] then
      if ip !in s.reg.peers then s
      else Write(s.(reg := s.reg.(peers := s.reg.peers - {ip}), env := s.env[PeerKey(ip) := []]), text)
    else if ip in s.reg.peers && s.reg.peers[ip] == path then s
    else Write(s.(reg := s.reg.(peers := s.reg.peers[ip := path]), env := s.env[PeerKey(ip) := path]), text)
  }

  /** Every variable the registry sets again when its directory changes, empty values too. */
  ghost predicate SyncOf(reg: Reg, e: Entry) {
    e == Entry(CA_KEY, reg.ca) ||
    (exists ip :: ip in reg.serials && e == Entry(IpKey(ip), reg.serials[ip])) ||
    (exists ip :: ip in reg.peers && e == Entry(PeerKey(ip), reg.peers[ip]))
  }

  /** `es` is the order in which the variables are set again. */
  function SetDir(s: State, dir: bytes, es: seq<Entry>, text: bytes): State {
    if s.dir == dir then s
    else
      var env := if dir == [] then s.env else s.env[CONFIG_DIR_KEY := dir];
      Write(s.(dir := dir, env := ApplyEntries(env, es)), text)
  }

  datatype Call =
    | CallCa(path: bytes)
    | CallSerial(ip: bytes, serial: bytes)
    | CallPeer(ip: bytes, path: bytes)
    | CallDir(dir: bytes)

  function After(s: State, c: Call, es: seq<Entry>, text: bytes): State {
    match c
    case CallCa(path) => SetCa(s, path, text)
    case CallSerial(ip, serial) => PutSerial(s, ip, serial, text)
    case CallPeer(ip, path) => SetPeer(s, ip, path, text)
    case CallDir(dir) => SetDir(s, dir, es, text)
  }

  /** A call that changes anything writes a rendering of the registry it leaves. */
  ghost predicate Faithful(s: State, t: State, es: seq<Entry>, text: bytes) {
    t != s ==>
      (t.dir != [] ==> Renders(text, t.reg)) &&
      (t.dir != s.dir ==> forall e :: e in es <==> SyncOf(t.reg, e))
  }

  ghost predicate Next(s: State, c: Call, t: State) {
    exists es, text :: t == After(s, c, es, text) && Faithful(s, t, es, text)
  }

  function Address(c: Call): set<bytes> {
    if c.CallSerial? || c.CallPeer? then {c.ip} else {}
  }

  // ---------- The mirrors agree ----------

  /** The environment answers for exactly what the registry holds, among these addresses. */
  ghost predicate EnvAgrees(env: Env, reg: Reg, ips: set<bytes>) {
    Get(env, CA_KEY) == reg.ca &&
    forall ip :: ip in ips ==>
      Get(env, IpKey(ip)) == Get(reg.serials, ip) && Get(env, PeerKey(ip)) == Get(reg.peers, ip)
  }

  /** What the environment can be held to when addresses share a key: it shows what the registry holds
      for some address with that key. */
  ghost predicate ShowsSome(v: bytes, m: map<bytes, bytes>, ips: set<bytes>, ip: bytes) {
    exists a :: a in ips && KeyTail(a) == KeyTail(ip) && Get(m, a) == v
  }

  ghost predicate Shows(env: Env, reg: Reg, ips: set<bytes>) {
    Get(env, CA_KEY) == reg.ca &&
    (forall ip {:trigger IpKey(ip)} :: ip in ips ==> ShowsSome(Get(env, IpKey(ip)), reg.serials, ips, ip)) &&
    (forall ip {:trigger PeerKey(ip)} :: ip in ips ==> ShowsSome(Get(env, PeerKey(ip)), reg.peers, ips, ip))
  }

  /** Addresses that share a key have equal entries. */
  ghost predicate SharersEqual(reg: Reg, ips: set<bytes>) {
    forall a, b :: a in ips && b in ips && KeyTail(a) == KeyTail(b) ==>
      Get(reg.serials, a) == Get(reg.serials, b) && Get(reg.peers, a) == Get(reg.peers, b)
  }

  /** The environment agrees with the registry exactly when addresses that share a key have equal
      entries there. */
  lemma AgreesIff(env: Env, reg: Reg, ips: set<bytes>)
    requires Shows(env, reg, ips)
    ensures EnvAgrees(env, reg, ips) <==> SharersEqual(reg, ips)
  {
    hide KeyTail, CA_KEY, IpKey, PeerKey, ShowsSome;
    if SharersEqual(reg, ips) {
      forall ip | ip in ips
        ensures Get(env, IpKey(ip)) == Get(reg.serials, ip) && Get(env, PeerKey(ip)) == Get(reg.peers, ip)
      {
        SharerAnswers(env, reg, ips, ip);
      }
    } else {
      var a, b :| a in ips && b in ips && KeyTail(a) == KeyTail(b) &&
        !(Get(reg.serials, a) == Get(reg.serials, b) && Get(reg.peers, a) == Get(reg.peers, b));
      KeysApart(a, b);
    }
  }

  lemma SharerAnswers(env: Env, reg: Reg, ips: set<bytes>, ip: bytes)
    requires Shows(env, reg, ips) && SharersEqual(reg, ips) && ip in ips
    ensures Get(env, IpKey(ip)) == Get(reg.serials, ip) && Get(env, PeerKey(ip)) == Get(reg.peers, ip)
  {
    hide KeyTail, CA_KEY, IpKey, PeerKey, ShowsSome;
    TheOnlyOne(Get(env, IpKey(ip)), reg.serials, ips, ip);
    TheOnlyOne(Get(env, PeerKey(ip)), reg.peers, ips, ip);
  }

  lemma TheOnlyOne(v: bytes, m: map<bytes, bytes>, ips: set<bytes>, ip: bytes)
    requires ShowsSome(v, m, ips, ip)
    requires forall a :: a in ips && KeyTail(a) == KeyTail(ip) ==> Get(m, a) == Get(m, ip)
    ensures v == Get(m, ip)
  {
    hide KeyTail;
  }

  ghost predicate Inv(s: State, ips: set<bytes>) {
    s.reg.serials.Keys <= ips && s.reg.peers.Keys <= ips &&
    Shows(s.env, s.reg, ips) &&
    (s.dir != [] ==> s.dir in s.files && Renders(s.files[s.dir], s.reg))
  }

  /** The names of the variables, and of the address in two of them: dots become underscores. */
  lemma KeysAre(ip: bytes)
    ensures CA_KEY == Ascii("OBN_LAN_TLS_") + Ascii("CA_FILE") && CONFIG_DIR_KEY == Ascii("OBN_CONFIG_DIR")
    ensures IpKey(ip)[..15] == Ascii("OBN_LAN_TLS_") + Ascii("IP_")
    ensures PeerKey(ip)[..17] == Ascii("OBN_LAN_TLS_") + Ascii("PEER_")
    ensures |IpKey(ip)| == 15 + |ip| && |PeerKey(ip)| == 17 + |ip|
    ensures forall i :: 0 <= i < |ip| ==>
              IpKey(ip)[15 + i] == PeerKey(ip)[17 + i] == if ip[i] as char == '.' then '_' as byte else ip[i]
  {
    PrefixIs();
    assert IpKey(ip)[..15] == IP_PREFIX && PeerKey(ip)[..17] == PEER_PREFIX;
  }

  lemma PrefixIs()
    ensures Ascii("OBN_LAN_TLS_") == IPC_PREFIX && Ascii("CA_FILE") == [67, 65, 95, 70, 73, 76, 69]
    ensures Ascii("IP_") == [73, 80, 95] && Ascii("PEER_") == [80, 69, 69, 82, 95]
    ensures Ascii("OBN_CONFIG_DIR") == CONFIG_DIR_KEY
  {
  }

  /** The comment that heads the file. */
  lemma HeaderIs()
    ensures HEADER == Ascii("# Open Bamboo ") + Ascii("Networking LAN") + Ascii(" TLS IPC (auto") + Ascii("-generated)")
  {
    HeaderStarts();
    HeaderGoesOn();
  }

  lemma HeaderStarts()
    ensures Ascii("# Open Bamboo ") == HEADER_1 && Ascii("Networking LAN") == HEADER_2
  {
  }

  lemma HeaderGoesOn()
    ensures Ascii(" TLS IPC (auto") == HEADER_3 && Ascii("-generated)") == HEADER_4
  {
  }

  /** A line `name=value` sets its variable when that is the directory's or one of the registry's own; a
      comment, an empty line and any other line set nothing. */
  lemma LineApplies(env: Env, key: bytes, val: bytes)
    requires '=' as byte !in key
    ensures ApplyLine(env, key + ['=' as byte] + val) ==
            if key != [] && key[0] as char != '#' &&
               (key == Ascii("OBN_CONFIG_DIR") || (|key| >= 12 && key[..12] == Ascii("OBN_LAN_TLS_")))
            then env[key := val] else env
  {
    hide CONFIG_DIR_KEY, IPC_PREFIX;
    PrefixIs();
    LengthOfPrefix();
    var line := key + ['=' as byte] + val;
    assert line[..|key|] == key && line[|key| + 1..] == val;
    FindAt(line, EQUALS, |key|);
    if key != [] { assert line[0] == key[0]; }
  }

  lemma LengthOfPrefix()
    ensures |IPC_PREFIX| == 12
  {
  }

  lemma OtherLines(env: Env, line: bytes)
    requires line == [] || line[0] as char == '#' || '=' as byte !in line
    ensures ApplyLine(env, line) == env
  {
    if EQUALS !in line { FindNone(line, EQUALS); }
  }

  /** A file is applied line by line, the last one with or without a line break. */
  function ApplyLines(env: Env, lines: seq<bytes>): Env
    decreases |lines|
  {
    if lines == [] then env else ApplyLines(ApplyLine(env, lines[0]), lines[1..])
  }

  function LinesText(lines: seq<bytes>): bytes {
    if lines == [] then [] else lines[0] + ['\n' as byte] + LinesText(lines[1..])
  }

  lemma {:induction false} FileApplies(env: Env, lines: seq<bytes>, last: bytes)
    requires (forall i :: 0 <= i < |lines| ==> '\n' as byte !in lines[i]) && '\n' as byte !in last
    ensures Hydrate(env, LinesText(lines) + last) == ApplyLine(ApplyLines(env, lines), last)
    decreases |lines|
  {
    hide ApplyLine;
    if lines == [] {
      assert LinesText(lines) + last == last;
      NothingApplies(env, last);
    } else {
      var l, rest := lines[0], LinesText(lines[1..]) + last;
      var text := LinesText(lines) + last;
      assert text == l + [LF] + rest;
      assert text[..|l|] == l && text[|l| + 1..] == rest;
      FindAt(text, LF, |l|);
      FileApplies(ApplyLine(env, l), lines[1..], last);
    }
  }

  lemma NothingApplies(env: Env, last: bytes)
    requires '\n' as byte !in last
    ensures Hydrate(env, last) == ApplyLine(env, last)
  {
    FindNone(last, LF);
    if last == [] { assert ApplyLine(env, last) == env; }
  }

  lemma {:induction false} FindNone(s: bytes, c: byte)
    requires c !in s
    ensures Find(s, c) == None
  {
    if s != [] { FindNone(s[1..], c); }
  }

  lemma KeysApart(a: bytes, b: bytes)
    ensures IpKey(a) != CA_KEY && PeerKey(a) != CA_KEY && IpKey(a) != PeerKey(b)
    ensures IpKey(a) == IpKey(b) <==> KeyTail(a) == KeyTail(b)
    ensures PeerKey(a) == PeerKey(b) <==> KeyTail(a) == KeyTail(b)
    ensures CA_KEY != CONFIG_DIR_KEY && IpKey(a) != CONFIG_DIR_KEY && PeerKey(a) != CONFIG_DIR_KEY
  {
    hide KeyTail;
    assert CA_KEY[12] == 67 && IpKey(a)[12] == 73 && PeerKey(a)[12] == 80 && PeerKey(b)[12] == 80;
    assert CONFIG_DIR_KEY[4] == 67 && CA_KEY[4] == 76 && IpKey(a)[4] == 76 && PeerKey(a)[4] == 76;
    assert IpKey(a)[15..] == KeyTail(a) && IpKey(b)[15..] == KeyTail(b);
    assert PeerKey(a)[17..] == KeyTail(a) && PeerKey(b)[17..] == KeyTail(b);
  }

  /** What is left unsaid about a map when one entry changes. */
  ghost predicate SameElsewhere(m: map<bytes, bytes>, m': map<bytes, bytes>, ips: set<bytes>, ip: bytes) {
    forall a :: a in ips && a != ip ==> Get(m', a) == Get(m, a)
  }

  /** A key is set to the new entry of an address: the keys of all addresses go on showing some
      address's entry. */
  lemma ShownStill(v: bytes, m: map<bytes, bytes>, m': map<bytes, bytes>, ips: set<bytes>, ip: bytes, x: bytes,
                   was: bytes)
    requires ip in ips && x in ips && SameElsewhere(m, m', ips, ip) && Get(m', ip) == v
    requires ShowsSome(was, m, ips, x)
    ensures ShowsSome(if KeyTail(x) == KeyTail(ip) then v else was, m', ips, x)
  {
    hide KeyTail;
    var a :| a in ips && KeyTail(a) == KeyTail(x) && Get(m, a) == was;
    if KeyTail(x) != KeyTail(ip) { assert a != ip; }
  }

  lemma SerialShown(env: Env, reg: Reg, reg': Reg, ips: set<bytes>, ip: bytes, v: bytes)
    requires Shows(env, reg, ips) && ip in ips && reg' == reg.(serials := reg'.serials)
    requires SameElsewhere(reg.serials, reg'.serials, ips, ip) && Get(reg'.serials, ip) == v
    ensures Shows(env[IpKey(ip) := v], reg', ips)
  {
    hide IpKey, PeerKey, CA_KEY, KeyTail, ShowsSome, SameElsewhere;
    KeysApart(ip, ip);
    forall x | x in ips
      ensures ShowsSome(Get(env[IpKey(ip) := v], IpKey(x)), reg'.serials, ips, x)
      ensures PeerKey(x) != IpKey(ip)
    {
      KeysApart(ip, x);
      ShownStill(v, reg.serials, reg'.serials, ips, ip, x, Get(env, IpKey(x)));
    }
  }

  lemma PeerShown(env: Env, reg: Reg, reg': Reg, ips: set<bytes>, ip: bytes, v: bytes)
    requires Shows(env, reg, ips) && ip in ips && reg' == reg.(peers := reg'.peers)
    requires SameElsewhere(reg.peers, reg'.peers, ips, ip) && Get(reg'.peers, ip) == v
    ensures Shows(env[PeerKey(ip) := v], reg', ips)
  {
    hide IpKey, PeerKey, CA_KEY, KeyTail, ShowsSome, SameElsewhere;
    KeysApart(ip, ip);
    forall x | x in ips
      ensures ShowsSome(Get(env[PeerKey(ip) := v], PeerKey(x)), reg'.peers, ips, x)
      ensures IpKey(x) != PeerKey(ip)
    {
      KeysApart(ip, x);
      KeysApart(x, ip);
      ShownStill(v, reg.peers, reg'.peers, ips, ip, x, Get(env, PeerKey(x)));
    }
  }

  lemma CaAgrees(s: State, ips: set<bytes>, path: bytes, text: bytes)
    requires Inv(s, ips) && Faithful(s, SetCa(s, path, text), [], text)
    ensures Inv(SetCa(s, path, text), ips)
  {
    hide IpKey, PeerKey, CA_KEY, Renders, KeyTail, ShowsSome;
    forall ip | ip in ips ensures IpKey(ip) != CA_KEY && PeerKey(ip) != CA_KEY { KeysApart(ip, ip); }
  }

  lemma SerialAgrees(s: State, ips: set<bytes>, ip: bytes, serial: bytes, text: bytes)
    requires Inv(s, ips) && ip in ips && Faithful(s, PutSerial(s, ip, serial, text), [], text)
    ensures Inv(PutSerial(s, ip, serial, text), ips)
  {
    hide IpKey, PeerKey, CA_KEY, Renders, KeyTail, Shows;
    if PutSerial(s, ip, serial, text) != s {
      SerialShown(s.env, s.reg, s.reg.(serials := s.reg.serials[ip := serial]), ips, ip, serial);
    }
  }

  lemma PeerAgrees(s: State, ips: set<bytes>, ip: bytes, path: bytes, text: bytes)
    requires Inv(s, ips) && ip in ips && Faithful(s, SetPeer(s, ip, path, text), [], text)
    ensures Inv(SetPeer(s, ip, path, text), ips)
  {
    hide IpKey, PeerKey, CA_KEY, Renders, KeyTail, Shows;
    var t := SetPeer(s, ip, path, text);
    if t != s {
      PeerShown(s.env, s.reg, t.reg, ips, ip, path);
    }
  }

  lemma DirAgrees(s: State, ips: set<bytes>, dir: bytes, es: seq<Entry>, text: bytes)
    requires Inv(s, ips) && Faithful(s, SetDir(s, dir, es, text), es, text)
    ensures Inv(SetDir(s, dir, es, text), ips)
  {
    hide IpKey, PeerKey, CA_KEY, CONFIG_DIR_KEY, KeyTail, ApplyEntries, Renders, Shows, SyncOf;
    if s.dir != dir {
      DirChangeWrites(s, dir, es, text);
      ConfigDirApart(s.env, s.reg, ips, dir);
      SyncedEnv(if dir == [] then s.env else s.env[CONFIG_DIR_KEY := dir], s.reg, ips, es);
    }
  }

  lemma DirChangeWrites(s: State, dir: bytes, es: seq<Entry>, text: bytes)
    requires s.dir != dir
    ensures var t := SetDir(s, dir, es, text); t != s && t.dir == dir && t.reg == s.reg
  {
    hide ApplyEntries, CONFIG_DIR_KEY;
  }

  lemma ConfigDirApart(env: Env, reg: Reg, ips: set<bytes>, dir: bytes)
    requires Shows(env, reg, ips)
    ensures Shows(env[CONFIG_DIR_KEY := dir], reg, ips)
  {
    hide IpKey, PeerKey, CA_KEY, CONFIG_DIR_KEY, KeyTail, ShowsSome;
    KeysApart([], []);
    forall ip | ip in ips ensures IpKey(ip) != CONFIG_DIR_KEY && PeerKey(ip) != CONFIG_DIR_KEY { KeysApart(ip, ip); }
  }

  /** Setting every variable again, in any order, leaves every key showing some address's entry. */
  lemma SyncedEnv(env: Env, reg: Reg, ips: set<bytes>, es: seq<Entry>)
    requires Shows(env, reg, ips) && reg.serials.Keys <= ips && reg.peers.Keys <= ips
    requires forall e :: e in es <==> SyncOf(reg, e)
    ensures Shows(ApplyEntries(env, es), reg, ips)
  {
    hide IpKey, PeerKey, CA_KEY, KeyTail, ApplyEntries, SyncOf;
    EntriesShow(env, es, reg, ips);
  }

  /** Entries of the registry, put over an environment that shows what they do not cover. */
  lemma EntriesShow(env: Env, es: seq<Entry>, reg: Reg, ips: set<bytes>)
    requires reg.serials.Keys <= ips && reg.peers.Keys <= ips && forall e :: e in es ==> SyncOf(reg, e)
    requires (forall e :: e in es ==> e.key != CA_KEY) ==> Get(env, CA_KEY) == reg.ca
    requires forall ip :: ip in ips && (forall e :: e in es ==> e.key != IpKey(ip)) ==>
               ShowsSome(Get(env, IpKey(ip)), reg.serials, ips, ip)
    requires forall ip :: ip in ips && (forall e :: e in es ==> e.key != PeerKey(ip)) ==>
               ShowsSome(Get(env, PeerKey(ip)), reg.peers, ips, ip)
    ensures Shows(ApplyEntries(env, es), reg, ips)
  {
    hide IpKey, PeerKey, CA_KEY, KeyTail, ApplyEntries, SyncOf;
    var env' := ApplyEntries(env, es);
    AppliedEntries(env, es, CA_KEY);
    if e :| e in es && e.key == CA_KEY { EntryIs(reg, ips, Entry(CA_KEY, Get(env', CA_KEY)), []); }
    forall ip | ip in ips
      ensures ShowsSome(Get(env', IpKey(ip)), reg.serials, ips, ip)
      ensures ShowsSome(Get(env', PeerKey(ip)), reg.peers, ips, ip)
    {
      AppliedEntries(env, es, IpKey(ip));
      AppliedEntries(env, es, PeerKey(ip));
      if e :| e in es && e.key == IpKey(ip) { EntryIs(reg, ips, Entry(IpKey(ip), Get(env', IpKey(ip))), ip); }
      if e :| e in es && e.key == PeerKey(ip) { EntryIs(reg, ips, Entry(PeerKey(ip), Get(env', PeerKey(ip))), ip); }
    }
  }

  /** An entry of the registry carries what the registry holds for some address with its key. */
  lemma EntryIs(reg: Reg, ips: set<bytes>, e: Entry, ip: bytes)
    requires reg.serials.Keys <= ips && reg.peers.Keys <= ips && SyncOf(reg, e)
    ensures e.key == CA_KEY ==> e.val == reg.ca
    ensures e.key == IpKey(ip) ==> ShowsSome(e.val, reg.serials, ips, ip)
    ensures e.key == PeerKey(ip) ==> ShowsSome(e.val, reg.peers, ips, ip)
  {
    hide IpKey, PeerKey, CA_KEY, KeyTail;
    KeysApart(ip, ip);
    if a :| a in reg.serials && e == Entry(IpKey(a), reg.serials[a]) {
      KeysApart(a, ip);
      assert a in ips && Get(reg.serials, a) == e.val;
    }
    if a :| a in reg.peers && e == Entry(PeerKey(a), reg.peers[a]) {
      KeysApart(a, ip);
      KeysApart(ip, a);
      assert a in ips && Get(reg.peers, a) == e.val;
    }
  }

  lemma StepAgrees(s: State, c: Call, t: State, ips: set<bytes>)
    requires Inv(s, ips) && Address(c) <= ips && Next(s, c, t)
    ensures Inv(t, ips)
  {
    hide Inv, SetCa, PutSerial, SetPeer, SetDir;
    hide Renders, SyncOf;
    var es, text :| t == After(s, c, es, text) && Faithful(s, t, es, text);
    if !c.CallDir? { DirStays(s, c, es, text); }
    match c
    case CallCa(path) => CaAgrees(s, ips, path, text);
    case CallSerial(ip, serial) => SerialAgrees(s, ips, ip, serial, text);
    case CallPeer(ip, path) => PeerAgrees(s, ips, ip, path, text);
    case CallDir(dir) => DirAgrees(s, ips, dir, es, text);
  }

  lemma DirStays(s: State, c: Call, es: seq<Entry>, text: bytes)
    requires !c.CallDir?
    ensures After(s, c, es, text).dir == s.dir
  {
    hide CA_KEY, IpKey, PeerKey;
  }

  /** No registry, no directory, and none of the registry's own variables set; the rest of the
      environment is whatever the process has. */
  ghost predicate Fresh(s: State, ips: set<bytes>) {
    s.dir == [] && s.reg == Reg([], map[], map[]) && EnvAgrees(s.env, s.reg, ips)
  }

  lemma FreshShows(s: State, ips: set<bytes>)
    requires Fresh(s, ips)
    ensures Inv(s, ips)
  {
    hide IpKey, PeerKey, CA_KEY, KeyTail;
  }

  /** After every sequence of calls, every key of the environment shows the entry of some address
      with that key, and the state file of a chosen directory is a rendering of the registry; and the
      environment answers for exactly the registry, erased peers empty, exactly when addresses that
      share a key have equal entries. */
  lemma {:induction false} RunAgrees(states: seq<State>, calls: seq<Call>, ips: set<bytes>)
    requires |states| == |calls| + 1 && Fresh(states[0], ips)
    requires forall i :: 0 <= i < |calls| ==> Address(calls[i]) <= ips && Next(states[i], calls[i], states[i + 1])
    ensures var s := states[|calls|];
            Inv(s, ips) && (EnvAgrees(s.env, s.reg, ips) <==> SharersEqual(s.reg, ips))
    decreases |calls|
  {
    hide Next, Inv, Fresh, EnvAgrees, SharersEqual;
    if calls == [] {
      FreshShows(states[0], ips);
    } else {
      var n := |calls| - 1;
      RunAgrees(states[..n + 1], calls[..n], ips);
      StepAgrees(states[n], calls[n], states[n + 1], ips);
    }
    InvAgreesIff(states[|calls|], ips);
  }

  lemma InvAgreesIff(s: State, ips: set<bytes>)
    requires Inv(s, ips)
    ensures EnvAgrees(s.env, s.reg, ips) <==> SharersEqual(s.reg, ips)
  {
    hide Shows, EnvAgrees, SharersEqual;
    AgreesIff(s.env, s.reg, ips);
  }

  // ---------- What the calls have left ----------

  /** The latest path, serial, peer certificate and directory given; a serial or an address that is empty
      counts for nothing, an empty peer path takes the certificate away. */
  function LastCa(calls: seq<Call>): bytes {
    if calls == [] then []
    else match calls[|calls| - 1]
      case CallCa(path) => path
      case _ => LastCa(calls[..|calls| - 1])
  }

  function LastSerial(calls: seq<Call>, ip: bytes): bytes {
    if calls == [] then []
    else
      var c := calls[|calls| - 1];
      if c.CallSerial? && c.ip == ip && ip != [] && c.serial != [] then c.serial
      else LastSerial(calls[..|calls| - 1], ip)
  }

  function LastPeer(calls: seq<Call>, ip: bytes): bytes {
    if calls == [] then []
    else
      var c := calls[|calls| - 1];
      if c.CallPeer? && c.ip == ip && ip != [] then c.path else LastPeer(calls[..|calls| - 1], ip)
  }

  function LastDir(calls: seq<Call>): bytes {
    if calls == [] then []
    else match calls[|calls| - 1]
      case CallDir(dir) => dir
      case _ => LastDir(calls[..|calls| - 1])
  }

  /** One call changes what it is for, to the value given, and leaves the rest of the registry alone. */
  lemma CallHolds(s: State, c: Call, t: State, ip: bytes)
    requires Next(s, c, t)
    ensures t.reg.ca == if c.CallCa? then c.path else s.reg.ca
    ensures t.dir == if c.CallDir? then c.dir else s.dir
    ensures Get(t.reg.serials, ip) ==
            if c.CallSerial? && c.ip == ip && ip != [] && c.serial != [] then c.serial else Get(s.reg.serials, ip)
    ensures Get(t.reg.peers, ip) == if c.CallPeer? && c.ip == ip && ip != [] then c.path else Get(s.reg.peers, ip)
  {
    hide Faithful, ApplyEntries, IpKey, PeerKey, CA_KEY, CONFIG_DIR_KEY, After;
    var es, text :| t == After(s, c, es, text) && Faithful(s, t, es, text);
    match c {
      case CallCa(path) => CaHolds(s, path, es, text);
      case CallSerial(a, serial) => SerialHolds(s, a, serial, es, text, ip);
      case CallPeer(a, path) => PeerHolds(s, a, path, es, text, ip);
      case CallDir(dir) => DirHolds(s, dir, es, text);
    }
  }

  lemma CaHolds(s: State, path: bytes, es: seq<Entry>, text: bytes)
    ensures var t := After(s, CallCa(path), es, text);
            t.reg == s.reg.(ca := path) && t.dir == s.dir
  {
  }

  lemma SerialHolds(s: State, a: bytes, serial: bytes, es: seq<Entry>, text: bytes, ip: bytes)
    ensures var t := After(s, CallSerial(a, serial), es, text);
            t.dir == s.dir && t.reg.ca == s.reg.ca && t.reg.peers == s.reg.peers &&
            Get(t.reg.serials, ip) == if a == ip && ip != [] && serial != [] then serial else Get(s.reg.serials, ip)
  {
  }

  lemma PeerHolds(s: State, a: bytes, path: bytes, es: seq<Entry>, text: bytes, ip: bytes)
    ensures var t := After(s, CallPeer(a, path), es, text);
            t.dir == s.dir && t.reg.ca == s.reg.ca && t.reg.serials == s.reg.serials &&
            Get(t.reg.peers, ip) == if a == ip && ip != [] then path else Get(s.reg.peers, ip)
  {
  }

  lemma DirHolds(s: State, dir: bytes, es: seq<Entry>, text: bytes)
    ensures var t := After(s, CallDir(dir), es, text); t.reg == s.reg && t.dir == dir
  {
    hide ApplyEntries;
  }

  /** After every sequence of calls the registry holds what was given last. */
  lemma {:induction false} RunHolds(states: seq<State>, calls: seq<Call>, ips: set<bytes>, ip: bytes)
    requires |states| == |calls| + 1 && Fresh(states[0], ips)
    requires forall i :: 0 <= i < |calls| ==> Next(states[i], calls[i], states[i + 1])
    ensures var s := states[|calls|];
            s.reg.ca == LastCa(calls) && s.dir == LastDir(calls) &&
            Get(s.reg.serials, ip) == LastSerial(calls, ip) && Get(s.reg.peers, ip) == LastPeer(calls, ip)
    decreases |calls|
  {
    hide Next;
    if calls != [] {
      var n := |calls| - 1;
      RunHolds(states[..n + 1], calls[..n], ips, ip);
      CallHolds(states[n], calls[n], states[n + 1], ip);
    }
  }

  /** Two addresses that differ only in dots and underscores share a key, and the later serial
      hides the earlier one. */
  lemma SharedKeyHides(s: State, a: bytes, b: bytes, sa: bytes, sb: bytes, t1: bytes, t2: bytes)
    requires s.reg.serials == map[] && a != b && KeyTail(a) == KeyTail(b) && a != [] && b != []
    requires sa != [] && sb != [] && sa != sb
    ensures var t := PutSerial(PutSerial(s, a, sa, t1), b, sb, t2);
            t.reg.serials[a] == sa && Get(t.env, IpKey(a)) == sb
  {
    KeysApart(a, b);
  }

  // ---------- Hydration reproduces the environment ----------

  /** Values and addresses that a line of the file can carry. */
  ghost predicate Plain(reg: Reg) {
    Free(reg.ca, LF) &&
    (forall ip :: ip in reg.serials ==> Free(ip, EQUALS) && Free(ip, LF) && Free(reg.serials[ip], LF)) &&
    (forall ip :: ip in reg.peers ==> Free(ip, EQUALS) && Free(ip, LF) && Free(reg.peers[ip], LF))
  }

  lemma EntriesValid(reg: Reg, e: Entry)
    requires Plain(reg) && EntryOf(reg, e)
    ensures ValidEntry(e)
  {
    hide KeyValid, CA_KEY, IpKey, PeerKey;
    if reg.ca != [] && e == Entry(CA_KEY, reg.ca) {
      CaKeyValid();
    } else if ip :| ip in reg.serials && reg.serials[ip] != [] && e == Entry(IpKey(ip), reg.serials[ip]) {
      IpKeyValid(ip);
    } else {
      var ip :| ip in reg.peers && reg.peers[ip] != [] && e == Entry(PeerKey(ip), reg.peers[ip]);
      IpKeyValid(ip);
    }
  }

  ghost predicate KeyValid(key: bytes) {
    IsIpcKey(key) && Free(key, EQUALS) && Free(key, LF)
  }

  lemma CaKeyValid()
    ensures KeyValid(CA_KEY)
  {
    PrefixedKey(CA_KEY[12..]);
    assert CA_KEY == IPC_PREFIX + CA_KEY[12..];
  }

  lemma IpKeyValid(ip: bytes)
    requires Free(ip, EQUALS) && Free(ip, LF)
    ensures KeyValid(IpKey(ip)) && KeyValid(PeerKey(ip))
  {
    hide KeyTail;
    TailFree(ip);
    PrefixedKey([73, 80, 95] + KeyTail(ip));
    PrefixedKey([80, 69, 69, 82, 95] + KeyTail(ip));
    assert IpKey(ip) == IPC_PREFIX + ([73, 80, 95] + KeyTail(ip));
    assert PeerKey(ip) == IPC_PREFIX + ([80, 69, 69, 82, 95] + KeyTail(ip));
  }

  lemma PrefixedKey(tail: bytes)
    requires Free(tail, EQUALS) && Free(tail, LF)
    ensures var k := IPC_PREFIX + tail; IsIpcKey(k) && Free(k, EQUALS) && Free(k, LF)
  {
    assert (IPC_PREFIX + tail)[..|IPC_PREFIX|] == IPC_PREFIX;
  }

  lemma TailFree(ip: bytes)
    ensures Free(ip, EQUALS) ==> Free(KeyTail(ip), EQUALS)
    ensures Free(ip, LF) ==> Free(KeyTail(ip), LF)
  {
  }

  lemma ListedIsSynced(reg: Reg, e: Entry)
    requires EntryOf(reg, e)
    ensures SyncOf(reg, e)
  {
    hide IpKey, PeerKey, CA_KEY;
  }

  /** What no line of the file covers, the registry does not hold. */
  lemma Uncovered(reg: Reg, es: seq<Entry>, ip: bytes)
    requires Lists(es, reg)
    ensures (forall e :: e in es ==> e.key != CA_KEY) ==> reg.ca == []
    ensures (forall e :: e in es ==> e.key != IpKey(ip)) ==> Get(reg.serials, ip) == []
    ensures (forall e :: e in es ==> e.key != PeerKey(ip)) ==> Get(reg.peers, ip) == []
  {
    hide IpKey, PeerKey, CA_KEY;
    if reg.ca != [] { assert Entry(CA_KEY, reg.ca) in es; }
    if Get(reg.serials, ip) != [] { assert Entry(IpKey(ip), reg.serials[ip]) in es; }
    if Get(reg.peers, ip) != [] { assert Entry(PeerKey(ip), reg.peers[ip]) in es; }
  }

  /** A library that reads the state file, starting from an empty environment or from that of the
      writing process, answers for exactly the registry when addresses that share a key have equal
      entries, and only then. */
  lemma HydrationAgrees(env: Env, s: State, ips: set<bytes>)
    requires Inv(s, ips) && Plain(s.reg) && s.dir != [] && (env == map[] || env == s.env)
    ensures var read := Hydrate(env, s.files[s.dir]);
            Shows(read, s.reg, ips) && (EnvAgrees(read, s.reg, ips) <==> SharersEqual(s.reg, ips))
  {
    hide IpKey, PeerKey, CA_KEY, KeyTail, Hydrate, Render, ApplyEntries, EntryOf, SyncOf, EnvAgrees, SharersEqual;
    var es: seq<Entry> :| Lists(es, s.reg) && s.files[s.dir] == Render(es);
    forall i | 0 <= i < |es| ensures ValidEntry(es[i]) {
      assert es[i] in es;
      EntriesValid(s.reg, es[i]);
    }
    RenderHydrates(env, es);
    forall e | e in es ensures SyncOf(s.reg, e) { ListedIsSynced(s.reg, e); }
    FallsBack(env, s, ips, es);
    EntriesShow(env, es, s.reg, ips);
    AgreesIff(ApplyEntries(env, es), s.reg, ips);
  }

  lemma FallsBack(env: Env, s: State, ips: set<bytes>, es: seq<Entry>)
    requires Inv(s, ips) && (env == map[] || env == s.env) && Lists(es, s.reg)
    ensures (forall e :: e in es ==> e.key != CA_KEY) ==> Get(env, CA_KEY) == s.reg.ca
    ensures forall ip :: ip in ips && (forall e :: e in es ==> e.key != IpKey(ip)) ==>
              ShowsSome(Get(env, IpKey(ip)), s.reg.serials, ips, ip)
    ensures forall ip :: ip in ips && (forall e :: e in es ==> e.key != PeerKey(ip)) ==>
              ShowsSome(Get(env, PeerKey(ip)), s.reg.peers, ips, ip)
  {
    hide IpKey, PeerKey, CA_KEY, KeyTail, EntryOf, Lists;
    if env == map[] {
      Uncovered(s.reg, es, []);
      forall ip | ip in ips && (forall e :: e in es ==> e.key != IpKey(ip))
        ensures ShowsSome(Get(env, IpKey(ip)), s.reg.serials, ips, ip)
      {
        Uncovered(s.reg, es, ip);
      }
      forall ip | ip in ips && (forall e :: e in es ==> e.key != PeerKey(ip))
        ensures ShowsSome(Get(env, PeerKey(ip)), s.reg.peers, ips, ip)
      {
        Uncovered(s.reg, es, ip);
      }
    }
  }

  // ---------- The registry as it is updated ----------

  lemma {:induction false} BodySnoc(es: seq<Entry>, e: Entry)
    ensures Body(es + [e]) == Body(es) + Line(e)
    decreases |es|
  {
    hide Line;
    if es == [] {
      assert [e][1..] == [];
    } else {
      assert (es + [e])[1..] == es[1..] + [e];
      BodySnoc(es[1..], e);
    }
  }

  lemma RenderSnoc(es: seq<Entry>, e: Entry)
    ensures Render(es + [e]) == Render(es) + Line(e)
    ensures Render([]) == HEADER + [LF]
  {
    hide HEADER, Line;
    BodySnoc(es, e);
  }

  lemma {:induction false} ApplySnoc(env: Env, es: seq<Entry>, e: Entry)
    ensures ApplyEntries(env, es + [e]) == ApplyEntries(env, es)[e.key := e.val]
    ensures ApplyEntries(env, []) == env
    decreases |es|
  {
    if es == [] {
      assert ([] + [e])[1..] == [];
    } else {
      assert (es + [e])[1..] == es[1..] + [e];
      ApplySnoc(env[es[0].key := es[0].val], es[1..], e);
    }
  }

  /** The entries of some of the addresses, those with an empty value left out when `skip`. */
  ghost predicate Listed(es: seq<Entry>, ca: bytes, serials: map<bytes, bytes>, peers: map<bytes, bytes>, skip: bool) {
    forall e :: e in es <==>
      ((!skip || e.val != []) && SyncOf(Reg(ca, serials, peers), e))
  }

  /** One more address taken from those still to do. */
  lemma OneLess(m: map<bytes, bytes>, todo: set<bytes>, ip: bytes)
    requires ip in todo && ip in m
    ensures m - (todo - {ip}) == (m - todo)[ip := m[ip]] && ip !in m - todo
  {
  }

  lemma ListedSerial(es: seq<Entry>, ca: bytes, serials: map<bytes, bytes>, todo: set<bytes>, ip: bytes, skip: bool)
    requires ip in todo && ip in serials && Listed(es, ca, serials - todo, map[], skip)
    ensures Listed(if skip && serials[ip] == [] then es else es + [Entry(IpKey(ip), serials[ip])],
                   ca, serials - (todo - {ip}), map[], skip)
  {
    hide IpKey, PeerKey, CA_KEY;
    var (some, more) := (serials - todo, serials - (todo - {ip}));
    OneLess(serials, todo, ip);
    forall e
      ensures SyncOf(Reg(ca, more, map[]), e) <==>
              SyncOf(Reg(ca, some, map[]), e) || e == Entry(IpKey(ip), serials[ip])
    {
      assert forall x :: x in some ==> x in more && more[x] == some[x];
      assert ip in more && more[ip] == serials[ip];
    }
  }

  lemma ListedPeer(es: seq<Entry>, ca: bytes, serials: map<bytes, bytes>, peers: map<bytes, bytes>, todo: set<bytes>,
                   ip: bytes, skip: bool)
    requires ip in todo && ip in peers && Listed(es, ca, serials, peers - todo, skip)
    ensures Listed(if skip && peers[ip] == [] then es else es + [Entry(PeerKey(ip), peers[ip])],
                   ca, serials, peers - (todo - {ip}), skip)
  {
    hide IpKey, PeerKey, CA_KEY;
    var (some, more) := (peers - todo, peers - (todo - {ip}));
    OneLess(peers, todo, ip);
    forall e
      ensures SyncOf(Reg(ca, serials, more), e) <==>
              SyncOf(Reg(ca, serials, some), e) || e == Entry(PeerKey(ip), peers[ip])
    {
      assert forall x :: x in some ==> x in more && more[x] == some[x];
      assert ip in more && more[ip] == peers[ip];
    }
  }

  lemma ListedAll(es: seq<Entry>, reg: Reg)
    requires Listed(es, reg.ca, reg.serials, reg.peers, true)
    ensures Lists(es, reg)
  {
    hide IpKey, PeerKey, CA_KEY;
  }

  class Registry {
    var dir: bytes
    var ca: bytes
    var serials: map<bytes, bytes>
    var peers: map<bytes, bytes>
    var env: Env
    var files: map<bytes, bytes>

    constructor (environment: Env, disk: map<bytes, bytes>)
      ensures Now() == State([], Reg([], map[], map[]), environment, disk)
    {
      dir, ca, serials, peers, env, files := [], [], map[], map[], environment, disk;
    }

    function Held(): Reg
      reads this
    {
      Reg(ca, serials, peers)
    }

    function Now(): State
      reads this
    {
      State(dir, Held(), env, files)
    }

    /** The loop over the serials in `write_state_file_locked`. */
    method WriteSerials(head: bytes) returns (out: bytes)
      requires exists es :: head == Render(es) && Listed(es, ca, map[], map[], true)
      ensures exists es :: out == Render(es) && Listed(es, ca, serials, map[], true)
    {
      hide IpKey, Listed, Render, Line;
      out := head;
      ghost var es: seq<Entry> :| head == Render(es) && Listed(es, ca, map[], map[], true);
      var todo := serials.Keys;
      assert serials - todo == map[];
      while todo != {}
        invariant todo <= serials.Keys
        invariant out == Render(es) && Listed(es, ca, serials - todo, map[], true)
        decreases |todo|
      {
        var ip :| ip in todo;
        ListedSerial(es, ca, serials, todo, ip, true);
        todo := todo - {ip};
        if serials[ip] != [] {
          var e := Entry(IpKey(ip), serials[ip]);
          RenderSnoc(es, e);
          es := es + [e];
          out := out + Line(e);
        }
      }
      assert serials - {} == serials;
    }

    /** The loop over the peer certificates in `write_state_file_locked`. */
    method WritePeers(head: bytes) returns (out: bytes)
      requires exists es :: head == Render(es) && Listed(es, ca, serials, map[], true)
      ensures exists es :: out == Render(es) && Listed(es, ca, serials, peers, true)
    {
      hide PeerKey, Listed, Render, Line;
      out := head;
      ghost var es: seq<Entry> :| head == Render(es) && Listed(es, ca, serials, map[], true);
      var todo := peers.Keys;
      assert peers - todo == map[];
      while todo != {}
        invariant todo <= peers.Keys
        invariant out == Render(es) && Listed(es, ca, serials, peers - todo, true)
        decreases |todo|
      {
        var ip :| ip in todo;
        ListedPeer(es, ca, serials, peers, todo, ip, true);
        todo := todo - {ip};
        if peers[ip] != [] {
          var e := Entry(PeerKey(ip), peers[ip]);
          RenderSnoc(es, e);
          es := es + [e];
          out := out + Line(e);
        }
      }
      assert peers - {} == peers;
    }

    /** `write_state_file_locked`, every write succeeding */
    method WriteStateFile() returns (ghost text: bytes)
      modifies this`files
      ensures Now() == Write(old(Now()), text)
      ensures dir != [] ==> Renders(text, Held())
    {
      hide CA_KEY, HEADER, Listed, Render, Line, Lists;
      text := [];
      if dir == [] { return; }
      var out := HEADER + [LF];
      ghost var es: seq<Entry> := [];
      RenderSnoc([], Entry(CA_KEY, ca));
      ListedCa(ca);
      if ca != [] {
        out := out + Line(Entry(CA_KEY, ca));
        es := [Entry(CA_KEY, ca)];
        assert [] + es == es;
      }
      assert out == Render(es);
      out := WriteSerials(out);
      out := WritePeers(out);
      es :| out == Render(es) && Listed(es, ca, serials, peers, true);
      ListedAll(es, Held());
      text := out;
      files := files[dir := out];
    }

    /** The loop over the serials in `sync_registry_locked`. */
    method SyncSerials(ghost first: seq<Entry>) returns (ghost es: seq<Entry>)
      requires Listed(first, ca, map[], map[], false)
      modifies this`env
      ensures Listed(es, ca, serials, map[], false)
      ensures forall was :: old(env) == ApplyEntries(was, first) ==> env == ApplyEntries(was, es)
    {
      hide IpKey, SyncOf, Listed, ApplyEntries;
      es := first;
      var todo := serials.Keys;
      assert serials - todo == map[];
      while todo != {}
        invariant todo <= serials.Keys
        invariant Listed(es, ca, serials - todo, map[], false)
        invariant forall was :: old(env) == ApplyEntries(was, first) ==> env == ApplyEntries(was, es)
        decreases |todo|
      {
        var ip :| ip in todo;
        ListedSerial(es, ca, serials, todo, ip, false);
        todo := todo - {ip};
        forall was { ApplySnoc(was, es, Entry(IpKey(ip), serials[ip])); }
        es := es + [Entry(IpKey(ip), serials[ip])];
        env := env[IpKey(ip) := serials[ip]];
      }
      assert serials - {} == serials;
    }

    /** The loop over the peer certificates in `sync_registry_locked`. */
    method SyncPeers(ghost first: seq<Entry>) returns (ghost es: seq<Entry>)
      requires Listed(first, ca, serials, map[], false)
      modifies this`env
      ensures Listed(es, ca, serials, peers, false)
      ensures forall was :: old(env) == ApplyEntries(was, first) ==> env == ApplyEntries(was, es)
    {
      hide PeerKey, SyncOf, Listed, ApplyEntries;
      es := first;
      var todo := peers.Keys;
      assert peers - todo == map[];
      while todo != {}
        invariant todo <= peers.Keys
        invariant Listed(es, ca, serials, peers - todo, false)
        invariant forall was :: old(env) == ApplyEntries(was, first) ==> env == ApplyEntries(was, es)
        decreases |todo|
      {
        var ip :| ip in todo;
        ListedPeer(es, ca, serials, peers, todo, ip, false);
        todo := todo - {ip};
        forall was { ApplySnoc(was, es, Entry(PeerKey(ip), peers[ip])); }
        es := es + [Entry(PeerKey(ip), peers[ip])];
        env := env[PeerKey(ip) := peers[ip]];
      }
      assert peers - {} == peers;
    }

    /** `sync_registry_locked`: every variable set again, then the file written */
    method SyncRegistry() returns (ghost es: seq<Entry>, ghost text: bytes)
      modifies this`env, this`files
      ensures forall e :: e in es <==> SyncOf(Held(), e)
      ensures Now() == Write(old(Now()).(env := ApplyEntries(old(env), es)), text)
      ensures dir != [] ==> Renders(text, Held())
    {
      hide IpKey, PeerKey, CA_KEY, SyncOf, Renders, Listed, ApplyEntries;
      es := [Entry(CA_KEY, ca)];
      ListedCa(ca);
      ApplySnoc(env, [], es[0]);
      assert [] + es == es;
      env := env[CA_KEY := ca];
      es := SyncSerials(es);
      es := SyncPeers(es);
      ListedIsSync(es, Held());
      text := WriteStateFile();
    }

    /** `registry_set_config_dir` */
    method SetConfigDir(d: bytes)
      modifies this
      ensures Next(old(Now()), CallDir(d), Now())
    {
      hide CONFIG_DIR_KEY, Renders, ApplyEntries, SyncOf;
      ghost var was := Now();
      ghost var es, text := [], [];
      if dir != d {
        dir := d;
        if d != [] { env := env[CONFIG_DIR_KEY := d]; }
        es, text := SyncRegistry();
        DirChangeWrites(was, d, es, text);
      }
      assert Now() == After(was, CallDir(d), es, text) && Faithful(was, Now(), es, text);
    }

    /** `registry_set_ca_file` */
    method SetCaFile(path: bytes)
      modifies this
      ensures Next(old(Now()), CallCa(path), Now())
    {
      hide CA_KEY, Renders, SyncOf;
      ghost var was := Now();
      ghost var text := [];
      if ca != path {
        ca := path;
        env := env[CA_KEY := ca];
        text := WriteStateFile();
      }
      assert Now() == After(was, CallCa(path), [], text) && Faithful(was, Now(), [], text);
    }

    /** `registry_put_ip_serial` */
    method PutIpSerial(ip: bytes, serial: bytes)
      modifies this
      ensures Next(old(Now()), CallSerial(ip, serial), Now())
    {
      hide IpKey, Renders, SyncOf;
      ghost var was := Now();
      ghost var text := [];
      if ip != [] && serial != [] && !(ip in serials && serials[ip] == serial) {
        serials := serials[ip := serial];
        env := env[IpKey(ip) := serial];
        text := WriteStateFile();
      }
      assert Now() == After(was, CallSerial(ip, serial), [], text) && Faithful(was, Now(), [], text);
    }

    /** `registry_set_peer_cert` */
    method SetPeerCert(ip: bytes, path: bytes)
      modifies this
      ensures Next(old(Now()), CallPeer(ip, path), Now())
    {
      hide PeerKey, Renders, SyncOf;
      ghost var was := Now();
      ghost var text := [];
      var wrote := false;
      if ip != [] {
        if path == [] {
          if ip in peers {
            peers := peers - {ip};
            wrote := true;
          }
        } else if !(ip in peers && peers[ip] == path) {
          peers := peers[ip := path];
          wrote := true;
        }
      }
      if wrote {
        env := env[PeerKey(ip) := path];
        text := WriteStateFile();
      }
      assert Now() == After(was, CallPeer(ip, path), [], text) && Faithful(was, Now(), [], text);
    }
  }

  lemma ListedCa(ca: bytes)
    ensures Listed([Entry(CA_KEY, ca)], ca, map[], map[], false)
    ensures Listed(if ca == [] then [] else [Entry(CA_KEY, ca)], ca, map[], map[], true)
  {
    hide IpKey, PeerKey, CA_KEY;
  }

  lemma ListedIsSync(es: seq<Entry>, reg: Reg)
    requires Listed(es, reg.ca, reg.serials, reg.peers, false)
    ensures forall e :: e in es <==> SyncOf(reg, e)
  {
    hide SyncOf;
  }
}
