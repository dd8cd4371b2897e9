/** The destination information two endpoints exchange before they connect: a line of hex text of fixed size. */
module DestInfo {
  import opened Arith
  import opened HexText
  import opened ImmData
  import opened Wrappers

  const NUL := '\0'
  const GID_BYTES := 16
  const GID_CHARS := 32

  /** `sizeof "0000:000000:000000:00000000000000000000000000000000"`. */
  const MESSAGE_SIZE := 52

  type Byte = x: nat | x < 256

  /** A 32-bit word of the gid, as its four bytes in memory. */
  datatype Quad = Quad(b0: Byte, b1: Byte, b2: Byte, b3: Byte)

  datatype Dest = Dest(lid: nat, qpn: nat, psn: nat, gid: seq<Byte>)

  predicate IsDest(d: Dest) {
    Word(d.lid) && Word(d.qpn) && Word(d.psn) && |d.gid| == GID_BYTES
  }

  function QuadAt(gid: seq<Byte>, i: nat): Quad
    requires 4 * i + 4 <= |gid|
  {
    Quad(gid[4 * i], gid[4 * i + 1], gid[4 * i + 2], gid[4 * i + 3])
  }

  function Memory(q: Quad): seq<Byte> {
    [q.b0, q.b1, q.b2, q.b3]
  }

  /** What a little-endian host loads. */
  function Load(q: Quad): (x: nat)
    ensures Word(x)
  {
    FromBytes(q.b3, q.b2, q.b1, q.b0)
  }

  function Store(x: nat): Quad {
    Quad(x % 256, (x / 256) % 256, (x / TWO_16) % 256, (x / TWO_24) % 256)
  }

  /** One word of `gid_to_wire_gid`. */
  function WireWord(q: Quad): string {
    Hex(SwapBytes(Load(q)), 8)
  }

  /** One word of `wire_gid_to_gid`; a block that does not start with a digit leaves it unset. */
  function ReadWord(tmp: string): Option<Quad> {
    var word := ScanHex(tmp);
    if word.None? then None else Some(Store(SwapBytes(word.value.0)))
  }

  /** The first `n` words as text, each by `format`. */
  function Text(format: Quad -> string, gid: seq<Byte>, n: nat): string
    requires 4 * n <= |gid|
  {
    if n == 0 then "" else Text(format, gid, n - 1) + format(QuadAt(gid, n - 1))
  }

  /** The first `n` words read back by `read`, eight characters each. */
  function FromText(read: string -> Option<Quad>, text: string, n: nat): Option<seq<Byte>>
    requires 8 * n <= |text|
  {
    if n == 0 then Some([])
    else
      var before, word := FromText(read, text, n - 1), read(text[8 * n - 8..8 * n]);
      if before.Some? && word.Some? then Some(before.value + Memory(word.value)) else None
  }

  function WireGid(gid: seq<Byte>): (s: string)
    requires |gid| == GID_BYTES
  {
    Text(WireWord, gid, 4)
  }

  function GidOfWire(wgid: string): Option<seq<Byte>>
    requires |wgid| >= GID_CHARS
  {
    FromText(ReadWord, wgid, 4)
  }

  ghost predicate Inverse(format: Quad -> string, read: string -> Option<Quad>) {
    forall q :: |format(q)| == 8 && read(format(q)) == Some(q)
  }

  lemma {:induction false} TextLength(format: Quad -> string, gid: seq<Byte>, n: nat)
    requires 4 * n <= |gid| && forall q :: |format(q)| == 8
    ensures |Text(format, gid, n)| == 8 * n
  {
    if n > 0 {
      TextLength(format, gid, n - 1);
    }
  }

  lemma {:induction false} TextBack(format: Quad -> string, read: string -> Option<Quad>, gid: seq<Byte>, n: nat, text: string)
    requires 4 * n <= |gid| && 8 * n <= |text| && Inverse(format, read) && text[..8 * n] == Text(format, gid, n)
    ensures FromText(read, text, n) == Some(gid[..4 * n])
  {
    if n > 0 {
      TextLength(format, gid, n - 1);
      var q := QuadAt(gid, n - 1);
      assert text[..8 * n - 8] == text[..8 * n][..8 * n - 8] == Text(format, gid, n - 1);
      assert text[8 * n - 8..8 * n] == text[..8 * n][8 * n - 8..] == format(q);
      TextBack(format, read, gid, n - 1, text);
      assert gid[..4 * n] == gid[..4 * n - 4] + Memory(q);
    }
  }

  lemma WireWordLength(q: Quad)
    ensures |WireWord(q)| == 8
  {
    HexLength(SwapBytes(Load(q)), 8);
    assert Pow(16, 1) == 16 && Pow(16, 2) == 256 && Pow(16, 3) == 4096 && Pow(16, 4) == TWO_16;
    assert Pow(16, 5) == TWO_16 * 16 && Pow(16, 6) == TWO_24 && Pow(16, 7) == TWO_24 * 16 && Pow(16, 8) == TWO_32;
  }

  lemma LoadStore(q: Quad)
    ensures Store(Load(q)) == q
  {
    BytesOf(q.b3, q.b2, q.b1, q.b0);
  }

  lemma WireWordBack(q: Quad)
    ensures ReadWord(WireWord(q)) == Some(q)
  {
    var x := SwapBytes(Load(q));
    assert Hex(x, 8) + "" == Hex(x, 8);
    ScanPrinted(x, 8, WireWord(q), "");
    SwapTwice(Load(q));
    LoadStore(q);
  }

  lemma WordsInverse()
    ensures Inverse(WireWord, ReadWord)
  {
    forall q: Quad ensures |WireWord(q)| == 8 && ReadWord(WireWord(q)) == Some(q) {
      WireWordLength(q);
      WireWordBack(q);
    }
  }

  lemma GidBack(gid: seq<Byte>)
    requires |gid| == GID_BYTES
    ensures |WireGid(gid)| == GID_CHARS && GidOfWire(WireGid(gid)) == Some(gid)
  {
    WordsInverse();
    TextLength(WireWord, gid, 4);
    var w := WireGid(gid);
    assert w[..32] == w && gid[..16] == gid;
    TextBack(WireWord, ReadWord, gid, 4, w);
  }

  /** The text shows the bytes in the order they have in memory, two digits each. */
  lemma WireWordBytes(q: Quad)
    ensures WireWord(q) == Hex(q.b0, 2) + Hex(q.b1, 2) + Hex(q.b2, 2) + Hex(q.b3, 2)
  {
    SwappedLoad(q);
    var v2: nat := q.b0 * 256 + q.b1;
    var v3: nat := v2 * 256 + q.b2;
    HexFourBytes(q.b0, v2, v3, SwapBytes(Load(q)), q.b1, q.b2, q.b3, 2, 4, 6, 8);
  }

  lemma SwappedLoad(q: Quad)
    ensures SwapBytes(Load(q)) == ((q.b0 * 256 + q.b1) * 256 + q.b2) * 256 + q.b3
  {
    BytesOf(q.b3, q.b2, q.b1, q.b0);
  }

  function ByteText(bytes: seq<Byte>): string {
    if bytes == [] then "" else ByteText(bytes[..|bytes| - 1]) + Hex(bytes[|bytes| - 1], 2)
  }

  ghost predicate Additive(show: seq<Byte> -> string) {
    show([]) == "" && forall a, b {:trigger show(a + b)} :: show(a + b) == show(a) + show(b)
  }

  lemma {:induction false} TextIsBytes(format: Quad -> string, show: seq<Byte> -> string, gid: seq<Byte>, n: nat)
    requires 4 * n <= |gid| && Additive(show) && forall q :: format(q) == show(Memory(q))
    ensures Text(format, gid, n) == show(gid[..4 * n])
  {
    if n > 0 {
      TextIsBytes(format, show, gid, n - 1);
      var before, word := gid[..4 * n - 4], Memory(QuadAt(gid, n - 1));
      assert gid[..4 * n] == before + word;
      assert show(before + word) == show(before) + show(word);
    } else {
      assert gid[..0] == [];
    }
  }

  lemma {:induction false} ByteTextCat(a: seq<Byte>, b: seq<Byte>)
    ensures ByteText(a + b) == ByteText(a) + ByteText(b)
  {
    if b == [] {
      assert a + b == a;
    } else {
      assert (a + b)[..|a + b| - 1] == a + b[..|b| - 1];
      ByteTextCat(a, b[..|b| - 1]);
    }
  }

  lemma QuadText(q: Quad)
    ensures ByteText(Memory(q)) == Hex(q.b0, 2) + Hex(q.b1, 2) + Hex(q.b2, 2) + Hex(q.b3, 2)
  {
    assert Memory(q) == [q.b0] + [q.b1] + [q.b2] + [q.b3];
    ByteTextCat([q.b0] + [q.b1] + [q.b2], [q.b3]);
    ByteTextCat([q.b0] + [q.b1], [q.b2]);
    ByteTextCat([q.b0], [q.b1]);
    OneByte(q.b0);
    OneByte(q.b1);
    OneByte(q.b2);
    OneByte(q.b3);
  }

  lemma OneByte(b: Byte)
    ensures ByteText([b]) == Hex(b, 2)
  {
    assert [b][..0] == [];
  }

  lemma ByteTextAdds()
    ensures Additive(ByteText)
  {
    forall a, b ensures ByteText(a + b) == ByteText(a) + ByteText(b) {
      ByteTextCat(a, b);
    }
  }

  lemma WordsShowBytes()
    ensures forall q :: WireWord(q) == ByteText(Memory(q))
  {
    forall q: Quad ensures WireWord(q) == ByteText(Memory(q)) {
      WireWordBytes(q);
      QuadText(q);
    }
  }

  lemma WireGidBytes(gid: seq<Byte>)
    requires |gid| == GID_BYTES
    ensures WireGid(gid) == ByteText(gid)
  {
    ByteTextAdds();
    WordsShowBytes();
    TextIsBytes(WireWord, ByteText, gid, 4);
    assert gid[..16] == gid;
  }

  // The line of text.

  /** `"%04x:%06x:%06x:%s"`. */
  function Print(d: Dest): string
    requires IsDest(d)
  {
    Hex(d.lid, 4) + (":" + (Hex(d.qpn, 6) + (":" + (Hex(d.psn, 6) + (":" + WireGid(d.gid))))))
  }

  function ExpectColon(r: Option<(nat, string)>): Option<(nat, string)> {
    if r.Some? && r.value.1 != "" && r.value.1[0] == ':' then Some((r.value.0, r.value.1[1..])) else None
  }

  /** `%s`: skip blanks, take everything up to the next blank. */
  function ScanString(s: string): Option<string> {
    var t := SkipBlanks(s);
    var w := UpToBlank(t);
    if w == "" then None else Some(w)
  }

  function UpToBlank(s: string): string {
    if s != "" && !Blank(s[0]) then [s[0]] + UpToBlank(s[1..]) else ""
  }

  /** `"%x:%x:%x:%s"` and the gid conversion; `None` when a field is left unset or the gid text has another size. */
  function Parse(s: string): Option<Dest> {
    var lid := ExpectColon(ScanHex(s));
    if lid.None? then None else
    var qpn := ExpectColon(ScanHex(lid.value.1));
    if qpn.None? then None else
    var psn := ExpectColon(ScanHex(qpn.value.1));
    if psn.None? then None else
    var wgid := ScanString(psn.value.1);
    if wgid.None? || |wgid.value| != GID_CHARS then None else
    var gid := GidOfWire(wgid.value);
    if gid.None? then None else Some(Dest(lid.value.0, qpn.value.0, psn.value.0, gid.value))
  }

  /** What the three number conversions leave in the fields: each is stored as soon as it is scanned, and the first mismatch ends the scan. */
  function FieldsRead(lid: nat, qpn: nat, psn: nat, s: string): (nat, nat, nat) {
    var first := ScanHex(s);
    if first.None? then (lid, qpn, psn) else
    var lid' := first.value.0;
    if ExpectColon(first).None? then (lid', qpn, psn) else
    var second := ScanHex(ExpectColon(first).value.1);
    if second.None? then (lid', qpn, psn) else
    var qpn' := second.value.0;
    if ExpectColon(second).None? then (lid', qpn', psn) else
    var third := ScanHex(ExpectColon(second).value.1);
    if third.None? then (lid', qpn', psn) else (lid', qpn', third.value.0)
  }

  lemma ScanField(v: nat, width: nat, rest: string)
    requires Word(v)
    ensures ExpectColon(ScanHex(Hex(v, width) + (":" + rest))) == Some((v, rest))
  {
    ScanPrinted(v, width, Hex(v, width) + (":" + rest), ":" + rest);
    assert (":" + rest)[1..] == rest;
  }

  /** A text without a number leaves all fields, one that stops after the first or second number leaves the rest. */
  lemma FieldsUntilFault(lid: nat, qpn: nat, psn: nat, a: nat, b: nat, rest: string)
    requires Word(a) && Word(b) && (rest == "" || (!IsHex(rest[0]) && rest[0] != ':'))
    ensures ScanHex(rest) == None ==> FieldsRead(lid, qpn, psn, rest) == (lid, qpn, psn)
    ensures FieldsRead(lid, qpn, psn, Hex(a, 4) + rest) == (a, qpn, psn)
    ensures FieldsRead(lid, qpn, psn, Hex(a, 4) + (":" + (Hex(b, 6) + rest))) == (a, b, psn)
  {
    ScanPrinted(a, 4, Hex(a, 4) + rest, rest);
    ScanField(a, 4, Hex(b, 6) + rest);
    ScanPrinted(b, 6, Hex(b, 6) + rest, rest);
  }

  lemma {:induction false} NoBlanks(s: string)
    requires forall i | 0 <= i < |s| :: !Blank(s[i])
    ensures UpToBlank(s) == s
  {
    if s != "" {
      NoBlanks(s[1..]);
    }
  }

  lemma {:induction false} TextIsHex(format: Quad -> string, gid: seq<Byte>, n: nat)
    requires 4 * n <= |gid| && forall q :: AllHex(format(q))
    ensures AllHex(Text(format, gid, n))
  {
    if n > 0 {
      TextIsHex(format, gid, n - 1);
    }
  }

  lemma WireIsHex(gid: seq<Byte>)
    requires |gid| == GID_BYTES
    ensures AllHex(WireGid(gid))
  {
    forall q: Quad ensures AllHex(WireWord(q)) {
      HexBack(SwapBytes(Load(q)), 8);
    }
    TextIsHex(WireWord, gid, 4);
  }

  lemma ScanWord(w: string)
    requires AllHex(w) && w != ""
    ensures ScanString(w) == Some(w)
  {
    assert IsHex(w[0]);
    NoBlanks(w);
  }

  /** Printing and parsing back is the identity on every 32-bit lid, qpn and psn and every 16-byte gid. */
  lemma PrintParse(d: Dest)
    requires IsDest(d)
    ensures Parse(Print(d)) == Some(d)
  {
    ScanField(d.lid, 4, Hex(d.qpn, 6) + (":" + (Hex(d.psn, 6) + (":" + WireGid(d.gid)))));
    ScanField(d.qpn, 6, Hex(d.psn, 6) + (":" + WireGid(d.gid)));
    ScanField(d.psn, 6, WireGid(d.gid));
    GidBack(d.gid);
    WireIsHex(d.gid);
    ScanWord(WireGid(d.gid));
  }

  predicate FieldsFit(d: Dest) {
    d.lid < TWO_16 && d.qpn < TWO_24 && d.psn < TWO_24
  }

  /** The text and its terminator fill the message exactly when the fields have the widths of the format. */
  lemma FillsMessage(d: Dest)
    requires IsDest(d)
    ensures |Print(d)| + 1 >= MESSAGE_SIZE
    ensures |Print(d)| + 1 == MESSAGE_SIZE <==> FieldsFit(d)
  {
    HexLength(d.lid, 4);
    HexLength(d.qpn, 6);
    HexLength(d.psn, 6);
    GidBack(d.gid);
    assert Pow(16, 1) == 16 && Pow(16, 2) == 256 && Pow(16, 3) == 4096 && Pow(16, 4) == TWO_16;
    assert Pow(16, 5) == TWO_16 * 16 && Pow(16, 6) == TWO_24;
  }

  lemma {:induction false} ByteTextAt(bytes: seq<Byte>, k: nat)
    requires k < |bytes|
    ensures |ByteText(bytes)| == 2 * |bytes| && ShowsNumber(ByteText(bytes)[2 * k..2 * k + 2], bytes[k])
  {
    var init, last := bytes[..|bytes| - 1], bytes[|bytes| - 1];
    HexLength(last, 2);
    HexShows(last, 2);
    assert Pow(16, 2) == Pow(16, 1) * 16 && Pow(16, 1) == Pow(16, 0) * 16;
    if k < |init| {
      ByteTextAt(init, k);
      assert ByteText(bytes)[2 * k..2 * k + 2] == ByteText(init)[2 * k..2 * k + 2];
    } else {
      if |init| > 0 {
        ByteTextAt(init, 0);
      }
      assert ByteText(bytes)[2 * k..2 * k + 2] == Hex(last, 2);
    }
  }

  /** Which characters of the message say what: "LID:QPN:PSN:GID" in 4, 6, 6 and 32 digits, and the terminator. */
  ghost predicate Layout(msg: string, d: Dest)
    requires |d.gid| == GID_BYTES
  {
    && |msg| == 52 && msg[4] == msg[11] == msg[18] == ':' && msg[51] == NUL
    && ShowsNumber(msg[..4], d.lid) && ShowsNumber(msg[5..11], d.qpn) && ShowsNumber(msg[12..18], d.psn)
    && forall k: nat | k < GID_BYTES :: ShowsNumber(msg[19..51][2 * k..2 * k + 2], d.gid[k])
  }

  lemma PrintLayout(d: Dest, msg: string)
    requires IsDest(d) && FieldsFit(d) && msg == Print(d) + [NUL]
    ensures Layout(msg, d)
  {
    FieldLengths(d);
    HexShows(d.lid, 4);
    HexShows(d.qpn, 6);
    HexShows(d.psn, 6);
    WireGidBytes(d.gid);
    ByteTextAt(d.gid, 0);
    Pieces(msg, Hex(d.lid, 4), Hex(d.qpn, 6), Hex(d.psn, 6), ByteText(d.gid));
    forall k: nat | k < GID_BYTES ensures ShowsNumber(msg[19..51][2 * k..2 * k + 2], d.gid[k]) {
      ByteTextAt(d.gid, k);
    }
  }

  lemma FieldLengths(d: Dest)
    requires IsDest(d) && FieldsFit(d)
    ensures |Hex(d.lid, 4)| == 4 && |Hex(d.qpn, 6)| == 6 && |Hex(d.psn, 6)| == 6
  {
    HexLength(d.lid, 4);
    HexLength(d.qpn, 6);
    HexLength(d.psn, 6);
    assert Pow(16, 1) == 16 && Pow(16, 2) == 256 && Pow(16, 3) == 4096 && Pow(16, 4) == TWO_16;
    assert Pow(16, 5) == TWO_16 * 16 && Pow(16, 6) == TWO_24;
  }

  lemma Pieces(msg: string, a: string, b: string, c: string, g: string)
    requires |a| == 4 && |b| == 6 && |c| == 6 && |g| == 32
    requires msg == a + (":" + (b + (":" + (c + (":" + g))))) + [NUL]
    ensures |msg| == 52 && msg[4] == msg[11] == msg[18] == ':' && msg[51] == NUL
    ensures msg[..4] == a && msg[5..11] == b && msg[12..18] == c && msg[19..51] == g
  {
  }

  // The same in place: C strings in character arrays, the gid in its bytes.

  /** The characters before the terminator. */
  function CString(msg: string): (s: string)
    ensures s <= msg && NUL !in s
  {
    if msg == "" || msg[0] == NUL then "" else [msg[0]] + CString(msg[1..])
  }

  /** Prints the words one after the other; each overwrites the terminator of the one before. */
  method PutWords(format: Quad -> string, gid: array<Byte>, wgid: array<char>)
    requires gid.Length == GID_BYTES && wgid.Length == GID_CHARS + 1 && forall q :: |format(q)| == 8
    modifies wgid
    ensures wgid[..] == Text(format, gid[..], 4) + [NUL]
  {
    for i := 0 to 4
      invariant wgid[..8 * i] == Text(format, gid[..], i)
      invariant i > 0 ==> wgid[8 * i] == NUL
    {
      PutString(wgid, 8 * i, format(QuadAt(gid[..], i)));
    }
    assert wgid[..] == wgid[..32] + [wgid[32]];
  }

  method GidToWireGid(gid: array<Byte>, wgid: array<char>)
    requires gid.Length == GID_BYTES && wgid.Length == GID_CHARS + 1
    modifies wgid
    ensures wgid[..] == WireGid(gid[..]) + [NUL]
  {
    WordsInverse();
    PutWords(WireWord, gid, wgid);
  }

  /** `sprintf` of one conversion: the characters and a terminator. */
  method PutString(buf: array<char>, at: nat, s: string)
    requires at + |s| < buf.Length
    modifies buf
    ensures buf[..at + |s|] == old(buf[..at]) + s && buf[at + |s|] == NUL
    ensures buf[at + |s| + 1..] == old(buf[at + |s| + 1..])
  {
    for k := 0 to |s|
      invariant buf[..at + k] == old(buf[..at]) + s[..k]
      invariant buf[at + k..] == old(buf[at + k..])
    {
      buf[at + k] := s[k];
      assert s[..k + 1] == s[..k] + [s[k]];
    }
    buf[at + |s|] := NUL;
    assert s[..|s|] == s;
  }

  /** The first `n` words are read into `bytes`, or one of them was left unset. */
  ghost predicate ReadSoFar(read: string -> Option<Quad>, wgid: string, n: nat, ok: bool, bytes: seq<Byte>)
    requires 8 * n <= |wgid|
  {
    FromText(read, wgid, n) == if ok then Some(bytes) else None
  }

  /** Scans one block of eight characters and stores its word. */
  method GetWord(read: string -> Option<Quad>, wgid: string, i: nat, ok: bool, gid: array<Byte>) returns (ok': bool)
    requires 4 * i + 4 <= gid.Length && 8 * i + 8 <= |wgid| && ReadSoFar(read, wgid, i, ok, gid[..4 * i])
    modifies gid
    ensures ReadSoFar(read, wgid, i + 1, ok', gid[..4 * i + 4])
  {
    var word := read(wgid[i * 8..i * 8 + 8]);
    ok' := ok && word.Some?;
    if ok' {
      var q := word.value;
      ghost var before := gid[..4 * i];
      gid[4 * i], gid[4 * i + 1], gid[4 * i + 2], gid[4 * i + 3] := q.b0, q.b1, q.b2, q.b3;
      assert gid[..4 * i + 4] == before + Memory(q);
    }
  }

  /** Stores the words one by one; a block without digits leaves the gid unset from there on. */
  method GetWords(read: string -> Option<Quad>, wgid: string, gid: array<Byte>) returns (ok: bool)
    requires |wgid| >= GID_CHARS && gid.Length == GID_BYTES
    modifies gid
    ensures FromText(read, wgid, 4) == if ok then Some(gid[..]) else None
  {
    ok := true;
    var i := 0;
    while i < 4
      invariant 0 <= i <= 4 && ReadSoFar(read, wgid, i, ok, gid[..4 * i])
    {
      ok := GetWord(read, wgid, i, ok, gid);
      i := i + 1;
    }
    assert gid[..] == gid[..16];
  }

  method WireGidToGid(wgid: string, gid: array<Byte>) returns (ok: bool)
    requires |wgid| >= GID_CHARS && gid.Length == GID_BYTES
    modifies gid
    ensures GidOfWire(wgid) == if ok then Some(gid[..]) else None
  {
    ok := GetWords(ReadWord, wgid, gid);
  }

  class WriteLatDest {
    var lid: nat
    var qpn: nat
    var psn: nat
    const gid: array<Byte>

    ghost function View(): Dest
      reads this, gid
    {
      Dest(lid, qpn, psn, gid[..])
    }

    constructor (lid: nat, qpn: nat, psn: nat, gid: array<Byte>)
      ensures this.gid == gid && View() == Dest(lid, qpn, psn, gid[..])
    {
      this.lid, this.qpn, this.psn, this.gid := lid, qpn, psn, gid;
    }

    /** The message this endpoint writes to the other one. */
    method WriteDest() returns (msg: array<char>)
      requires IsDest(View()) && FieldsFit(View())
      ensures fresh(msg) && msg.Length == MESSAGE_SIZE && msg[..] == Print(View()) + [NUL]
      ensures Layout(msg[..], View())
    {
      FillsMessage(View());
      GidBack(gid[..]);
      msg := new char[MESSAGE_SIZE](_ => NUL);
      var wgid := new char[GID_CHARS + 1](_ => NUL);
      GidToWireGid(gid, wgid);
      assert wgid[..GID_CHARS] == WireGid(gid[..]);
      var text := Hex(lid, 4) + (":" + (Hex(qpn, 6) + (":" + (Hex(psn, 6) + (":" + wgid[..GID_CHARS])))));
      PutString(msg, 0, text);
      assert msg[..] == msg[..|text|] + [msg[|text|]];
      PrintLayout(View(), msg[..]);
    }

    /** Fills in this destination from the message of the other endpoint; a malformed one fills in what comes before its fault. */
    method ReadDest(msg: array<char>) returns (ok: bool)
      requires msg.Length == MESSAGE_SIZE && gid.Length == GID_BYTES
      modifies this, gid
      ensures ok <==> Parse(CString(msg[..])).Some?
      ensures ok ==> View() == Parse(CString(msg[..])).value
      ensures (lid, qpn, psn) == FieldsRead(old(lid), old(qpn), old(psn), CString(msg[..]))
    {
      ok := false;
      var first := ScanHex(CString(msg[..]));
      if first.None? { return; }
      lid := first.value.0;
      var colon := ExpectColon(first);
      if colon.None? { return; }
      var second := ScanHex(colon.value.1);
      if second.None? { return; }
      qpn := second.value.0;
      colon := ExpectColon(second);
      if colon.None? { return; }
      var third := ScanHex(colon.value.1);
      if third.None? { return; }
      psn := third.value.0;
      colon := ExpectColon(third);
      if colon.None? { return; }
      var wgid := ScanString(colon.value.1);
      if wgid.None? || |wgid.value| != GID_CHARS { return; }
      ok := WireGidToGid(wgid.value, gid);
    }
  }

  lemma {:induction false} CStringEnds(s: string)
    requires NUL !in s
    ensures CString(s + [NUL]) == s
  {
    if s == "" {
      assert s + [NUL] == [NUL];
    } else {
      assert (s + [NUL])[1..] == s[1..] + [NUL];
      CStringEnds(s[1..]);
    }
  }

  /** What one endpoint writes, the other one reads. */
  method Handshake(mine: WriteLatDest, theirs: WriteLatDest) returns (ok: bool)
    requires IsDest(mine.View()) && FieldsFit(mine.View()) && theirs.gid.Length == GID_BYTES
    requires mine != theirs && mine.gid != theirs.gid
    modifies theirs, theirs.gid
    ensures ok && theirs.View() == mine.View()
  {
    var msg := mine.WriteDest();
    PrintHasNoNul(mine.View());
    CStringEnds(Print(mine.View()));
    PrintParse(mine.View());
    ok := theirs.ReadDest(msg);
  }

  lemma PrintHasNoNul(d: Dest)
    requires IsDest(d)
    ensures NUL !in Print(d)
  {
    HexBack(d.lid, 4);
    HexBack(d.qpn, 6);
    HexBack(d.psn, 6);
    WireIsHex(d.gid);
  }
}
