/** The client's `my.info.txt`: saving it, loading it, and the Base64 in between. */
module MyInfo {
  import opened ByteStrings
  import opened Protocol
  import opened TextFiles
  import opened ClientCache
  import opened ClientActions
  import opened Hex

  const PAD: byte := 61 // "="

  // ---- Base64, section 4 of RFC 4648 ----

  predicate IsBase64(c: byte) {
    65 <= c <= 90 || 97 <= c <= 122 || 48 <= c <= 57 || c == 43 || c == 47
  }

  type Sextet = v: int | 0 <= v < 64

  function CharOf(v: Sextet): (c: byte)
    ensures IsBase64(c) && ValueOf(c) == v
  {
    if v < 26 then 65 + v else if v < 52 then 71 + v else if v < 62 then v - 4 else if v == 62 then 43 else 47
  }

  function ValueOf(c: byte): Sextet
    requires IsBase64(c)
  {
    if 65 <= c <= 90 then c - 65 else if 97 <= c <= 122 then c - 71 else if 48 <= c <= 57 then c + 4
    else if c == 43 then 62 else 63
  }

  /** Three bytes become four characters; a short last group is padded. */
  function Encode64(b: Bytes): Bytes {
    if b == [] then []
    else if |b| == 1 then [CharOf(b[0] / 4), CharOf(b[0] % 4 * 16), PAD, PAD]
    else if |b| == 2 then [CharOf(b[0] / 4), CharOf(b[0] % 4 * 16 + b[1] / 16), CharOf(b[1] % 16 * 4), PAD]
    else [CharOf(b[0] / 4), CharOf(b[0] % 4 * 16 + b[1] / 16), CharOf(b[1] % 16 * 4 + b[2] / 64), CharOf(b[2] % 64)]
         + Encode64(b[3..])
  }

  /** A decoder passes over every character outside the alphabet, padding included. */
  function Sextets(s: Bytes): seq<Sextet> {
    if s == [] then []
    else if IsBase64(s[0]) then [ValueOf(s[0])] + Sextets(s[1..]) else Sextets(s[1..])
  }

  function FirstByte(p: Sextet, q: Sextet): byte {
    p * 4 + q / 16
  }

  function SecondByte(q: Sextet, r: Sextet): byte {
    q % 16 * 16 + r / 4
  }

  function ThirdByte(r: Sextet, s: Sextet): byte {
    r % 4 * 64 + s
  }

  /** Four sextets become three bytes; bits that do not fill a byte are dropped. */
  function Regroup(v: seq<Sextet>): Bytes {
    if |v| < 2 then []
    else if |v| == 2 then [FirstByte(v[0], v[1])]
    else if |v| == 3 then [FirstByte(v[0], v[1]), SecondByte(v[1], v[2])]
    else [FirstByte(v[0], v[1]), SecondByte(v[1], v[2]), ThirdByte(v[2], v[3])] + Regroup(v[4..])
  }

  function Decode64(s: Bytes): Bytes {
    Regroup(Sextets(s))
  }

  lemma SextetFirst(v: Sextet, rest: Bytes)
    ensures Sextets([CharOf(v)] + rest) == [v] + Sextets(rest)
  {
  }

  lemma SextetsOfPadding()
    ensures Sextets([PAD]) == [] && Sextets([PAD, PAD]) == []
  {
  }

  lemma SextetsOfGroup(p: Sextet, q: Sextet, r: Sextet, s: Sextet, rest: Bytes)
    ensures Sextets([CharOf(p), CharOf(q), CharOf(r), CharOf(s)] + rest) == [p, q, r, s] + Sextets(rest)
  {
    hide Sextets, CharOf;
    SextetFirst(s, rest);
    SextetFirst(r, [CharOf(s)] + rest);
    SextetFirst(q, [CharOf(r)] + ([CharOf(s)] + rest));
    SextetFirst(p, [CharOf(q)] + ([CharOf(r)] + ([CharOf(s)] + rest)));
    assert [CharOf(p), CharOf(q), CharOf(r), CharOf(s)] + rest
        == [CharOf(p)] + ([CharOf(q)] + ([CharOf(r)] + ([CharOf(s)] + rest)));
    assert [p] + ([q] + ([r] + ([s] + Sextets(rest)))) == [p, q, r, s] + Sextets(rest);
  }

  /** Cutting three bytes into sextets and joining them again. */
  lemma SplitAndJoin(x: byte, y: byte, z: byte)
    ensures FirstByte(x / 4, x % 4 * 16 + y / 16) == x
    ensures SecondByte(x % 4 * 16 + y / 16, y % 16 * 4 + z / 64) == y
    ensures ThirdByte(y % 16 * 4 + z / 64, z % 64) == z
  {
  }

  lemma RegroupFour(p: Sextet, q: Sextet, r: Sextet, s: Sextet, v: seq<Sextet>)
    ensures Regroup([p, q, r, s] + v) == [FirstByte(p, q), SecondByte(q, r), ThirdByte(r, s)] + Regroup(v)
  {
  }

  /** The last group, when it holds one byte. */
  lemma DecodeOne(x: byte)
    ensures Decode64(Encode64([x])) == [x]
  {
    var p: Sextet, q: Sextet := x / 4, x % 4 * 16;
    assert Encode64([x]) == [CharOf(p)] + ([CharOf(q)] + [PAD, PAD]);
    hide Sextets, CharOf, Encode64, FirstByte, SecondByte, ThirdByte;
    SextetsOfPadding();
    SplitAndJoin(x, 0, 0);
    SextetFirst(q, [PAD, PAD]);
    SextetFirst(p, [CharOf(q)] + [PAD, PAD]);
    assert Sextets(Encode64([x])) == [p, q];
  }

  /** The last group, when it holds two. */
  lemma DecodeTwo(x: byte, y: byte)
    ensures Decode64(Encode64([x, y])) == [x, y]
  {
    var p: Sextet, q: Sextet, r: Sextet := x / 4, x % 4 * 16 + y / 16, y % 16 * 4;
    assert Encode64([x, y]) == [CharOf(p)] + ([CharOf(q)] + ([CharOf(r)] + [PAD]));
    hide Sextets, CharOf, Encode64, FirstByte, SecondByte, ThirdByte;
    SextetsOfPadding();
    SplitAndJoin(x, y, 0);
    SextetFirst(r, [PAD]);
    SextetFirst(q, [CharOf(r)] + [PAD]);
    SextetFirst(p, [CharOf(q)] + ([CharOf(r)] + [PAD]));
    assert Sextets(Encode64([x, y])) == [p, q, r];
  }

  /** Decoding inverts encoding, for keys of any length. */
  lemma {:induction false} DecodeEncoded64(b: Bytes)
    ensures Decode64(Encode64(b)) == b
  {
    if |b| >= 3 {
      hide Sextets, CharOf, Regroup, FirstByte, SecondByte, ThirdByte;
      DecodeEncoded64(b[3..]);
      var p: Sextet, q: Sextet, r: Sextet, s: Sextet := b[0] / 4, b[0] % 4 * 16 + b[1] / 16, b[1] % 16 * 4 + b[2] / 64, b[2] % 64;
      SextetsOfGroup(p, q, r, s, Encode64(b[3..]));
      RegroupFour(p, q, r, s, Sextets(Encode64(b[3..])));
      SplitAndJoin(b[0], b[1], b[2]);
      assert b == [b[0], b[1], b[2]] + b[3..];
    } else if |b| == 2 {
      assert b == [b[0], b[1]];
      DecodeTwo(b[0], b[1]);
    } else if |b| == 1 {
      assert b == [b[0]];
      DecodeOne(b[0]);
    }
  }

  lemma {:induction false} EncodedAlphabet(b: Bytes)
    ensures forall c :: c in Encode64(b) ==> IsBase64(c) || c == PAD
    ensures b != [] ==> Encode64(b) != []
  {
    if |b| >= 3 {
      EncodedAlphabet(b[3..]);
    }
  }

  /** The library's encoder breaks its output into lines, wherever it likes. */
  predicate BreaksInserted(broken: Bytes, s: Bytes) {
    if broken == [] then s == []
    else
      || (broken[0] in {NEWLINE, RETURN} && BreaksInserted(broken[1..], s))
      || (s != [] && broken[0] == s[0] && BreaksInserted(broken[1..], s[1..]))
  }

  function Removed(s: Bytes, c: byte): (r: Bytes)
    ensures |r| <= |s|
  {
    if s == [] then [] else if s[0] == c then Removed(s[1..], c) else [s[0]] + Removed(s[1..], c)
  }

  lemma {:induction false} RemovedSnoc(s: Bytes, b: byte, c: byte)
    ensures Removed(s + [b], c) == if b == c then Removed(s, c) else Removed(s, c) + [b]
  {
    if s == [] {
      assert [] + [b] == [b] && [b][1..] == [];
    } else {
      RemovedSnoc(s[1..], b, c);
      assert (s + [b])[1..] == s[1..] + [b];
    }
  }

  lemma RemovedNext(s: Bytes, i: nat, c: byte)
    requires i < |s|
    ensures Removed(s[..i + 1], c) == if s[i] == c then Removed(s[..i], c) else Removed(s[..i], c) + [s[i]]
  {
    assert s[..i + 1] == s[..i] + [s[i]];
    RemovedSnoc(s[..i], s[i], c);
  }

  /** `s.erase(std::remove(s.begin(), s.end(), c), s.end())` */
  method EraseRemove(s: array<byte>, size: nat, c: byte) returns (kept: nat)
    requires size <= s.Length
    modifies s
    ensures kept <= size && s[..kept] == Removed(old(s[..size]), c)
  {
    hide Removed;
    kept := 0;
    ghost var was := s[..size];
    assert was[..0] == [] && Removed([], c) == [] by {
      NothingRemoved(c);
    }
    for i := 0 to size
      invariant kept <= i
      invariant s[..kept] == Removed(was[..i], c)
      invariant forall j :: i <= j < size ==> s[j] == was[j]
    {
      RemovedNext(was, i, c);
      if s[i] != c {
        s[kept] := s[i];
        kept := kept + 1;
      }
    }
    assert was[..size] == was;
  }

  lemma NothingRemoved(c: byte)
    ensures Removed([], c) == []
  {
  }

  /** Removing the line breaks gives back what the encoder broke up. */
  lemma {:induction false} BreaksRemoved(broken: Bytes, s: Bytes)
    requires BreaksInserted(broken, s) && NEWLINE !in s && RETURN !in s
    ensures Removed(Removed(broken, NEWLINE), RETURN) == s
  {
    if broken != [] {
      if broken[0] in {NEWLINE, RETURN} && BreaksInserted(broken[1..], s) {
        BreaksRemoved(broken[1..], s);
      } else {
        BreaksRemoved(broken[1..], s[1..]);
        assert s[0] in s && s == [s[0]] + s[1..];
      }
      if broken[0] != NEWLINE {
        assert ([broken[0]] + Removed(broken[1..], NEWLINE))[1..] == Removed(broken[1..], NEWLINE);
      }
    }
  }

  // ---- The file ----

  datatype Info = Info(name: Bytes, id: Id, key: Bytes)

  function FileText(info: Info): Bytes {
    info.name + [NEWLINE] + ToHex(info.id) + [NEWLINE] + Encode64(info.key)
  }

  predicate NonZero(id: Id) {
    exists b :: b in id && b != 0
  }

  /** `None` leaves the file alone; `encoded` is what the Base64 wrapper returned and `opens`
      tells whether the file can be opened. */
  method SaveMyInfo(ctx: ClientContext, encoded: Bytes, opens: bool) returns (file: Option<Bytes>)
    requires BreaksInserted(encoded, Encode64(ctx.privateKey))
    ensures file == if opens && NonZero(ctx.clientId) && ctx.userName != [] && ctx.privateKey != []
                    then Some(FileText(Info(ctx.userName, ctx.clientId, ctx.privateKey))) else None
  {
    hide Encode64, ToHex, Removed, BreaksInserted;
    var hasId := ctx.HasClientId();
    if !hasId || ctx.userName == [] || ctx.privateKey == [] {
      return None;
    }
    if !opens {
      return None;
    }
    var text := new byte[|encoded|](i requires 0 <= i < |encoded| => encoded[i]);
    assert text[..|encoded|] == encoded;
    var size := EraseRemove(text, |encoded|, NEWLINE);
    size := EraseRemove(text, size, RETURN);
    EncodedAlphabet(ctx.privateKey);
    BreaksRemoved(encoded, Encode64(ctx.privateKey));
    var hex := BytesToHex(ctx.clientId);
    return Some(ctx.userName + [NEWLINE] + hex + [NEWLINE] + text[..size]);
  }

  /** What a file must hold to be loaded: three lines, a valid name, 32 hexadecimal digits and a
      key that decodes to something. */
  function Parsed(text: Bytes): Option<Info> {
    var lines := Lines(text);
    if |lines| == 3 && ValidUsername(lines[0]) && ValidHexUuid(lines[1]) && lines[2] != [] && Decode64(lines[2]) != []
    then Some(Info(lines[0], FromHex(lines[1]), Decode64(lines[2])))
    else None
  }

  /** The three reads, and the fourth that must find nothing. */
  method ReadThreeLines(file: TextStream) returns (lines: Option<seq<Bytes>>)
    modifies file
    ensures lines == if |Lines(old(file.rest))| == 3 then Some(Lines(old(file.rest))) else None
  {
    hide Lines, UpTo, AfterLine;
    ghost var all := Lines(file.rest);
    var name := file.GetLine();
    if name.None? {
      return None;
    }
    var idHex := file.GetLine();
    if idHex.None? {
      return None;
    }
    var key64 := file.GetLine();
    if key64.None? {
      return None;
    }
    var extra := file.GetLine();
    if extra.Some? {
      return None;
    }
    assert all == [name.value] + ([idHex.value] + ([key64.value] + []))
        == [name.value, idHex.value, key64.value];
    return Some([name.value, idHex.value, key64.value]);
  }

  /** The loader: nothing is stored unless every check passes. */
  method ValidateAndLoadMyInfo(file: TextStream, ctx: ClientContext) returns (ok: bool)
    modifies file, ctx`clientId, ctx`userName, ctx`privateKey
    ensures ok <==> Parsed(old(file.rest)).Some?
    ensures ok ==> Parsed(old(file.rest)) == Some(Info(ctx.userName, ctx.clientId, ctx.privateKey))
    ensures !ok ==> ctx.clientId == old(ctx.clientId) && ctx.userName == old(ctx.userName) && ctx.privateKey == old(ctx.privateKey)
  {
    hide Lines, Decode64, ToHex, FromHex, UpTo, AfterLine, ValidUsername;
    var lines := ReadThreeLines(file);
    if lines.None? {
      return false;
    }
    var name, idHex, key64 := lines.value[0], lines.value[1], lines.value[2];
    var validName := IsValidUsername(name);
    if !validName {
      return false;
    }
    var id := UuidHex32ToBytes16(idHex);
    if id.Failed? || key64 == [] {
      return false;
    }
    var key := Decode64(key64);
    if key == [] {
      return false;
    }
    ctx.userName := name;
    ctx.clientId := id.value;
    ctx.privateKey := key;
    return true;
  }

  lemma IdAndKeyLines(id: Id, key: Bytes)
    requires key != []
    ensures Lines(ToHex(id) + [NEWLINE] + Encode64(key)) == [ToHex(id), Encode64(key)]
  {
    hide Lines, ToHex, Encode64, UpTo, AfterLine;
    EncodedAlphabet(key);
    ParsePrinted(id);
    FirstLine(Encode64(key), []);
    FirstLine(ToHex(id), Encode64(key));
  }

  lemma TextLoads(info: Info)
    requires NonZero(info.id) && info.name != [] && info.key != []
    ensures Parsed(FileText(info)) == if ValidUsername(info.name) && NEWLINE !in info.name then Some(info) else None
  {
    hide Lines, ToHex, FromHex, Encode64, Decode64, UpTo, AfterLine, ValidUsername;
    DecodeEncoded64(info.key);
    EncodedAlphabet(info.key);
    ParsePrinted(info.id);
    IdAndKeyLines(info.id, info.key);
    var rest := ToHex(info.id) + [NEWLINE] + Encode64(info.key);
    assert FileText(info) == info.name + [NEWLINE] + rest;
    if NEWLINE !in info.name {
      FirstLine(info.name, rest);
    } else {
      LinesAtLeast(info.name, rest);
    }
  }

  /** No newline follows the key. */
  lemma EndsWithKey(info: Info)
    requires info.key != []
    ensures var text := FileText(info); IsBase64(text[|text| - 1]) || text[|text| - 1] as char == '='
  {
    EncodedAlphabet(info.key);
    hide Encode64;
  }

  /** An end mark can only come from the name, and then the text stops inside it. */
  lemma WhatIsRead(info: Info)
    ensures UpTo(FileText(info), END_MARK) == if END_MARK in info.name then UpTo(info.name, END_MARK) else FileText(info)
  {
    hide ToHex, Encode64;
    EncodedAlphabet(info.key);
    ParsePrinted(info.id);
    var rest := [NEWLINE] + ToHex(info.id) + [NEWLINE] + Encode64(info.key);
    var text, name := FileText(info), info.name;
    assert text == name + rest;
    if END_MARK in name {
      var cut := UpTo(name, END_MARK);
      var more := name[|cut| + 1..];
      assert text == cut + [END_MARK] + (more + rest);
      UpToFirst(cut, END_MARK, more + rest);
    } else {
      UpToFirst(text, END_MARK, []);
    }
  }

  lemma LinesHoldNoNewline(text: Bytes)
    ensures Lines(text) != [] ==> NEWLINE !in Lines(text)[0]
    ensures NEWLINE !in text ==> |Lines(text)| <= 1
  {
    if text != [] && NEWLINE !in text {
      FirstLine(text, []);
    }
  }

  /** A saved file, written and read in text mode, restores what was saved exactly when the name
      is valid and holds neither a newline nor an end mark; otherwise it is rejected as a whole,
      unless the name holds both. */
  lemma SavedLoads(info: Info)
    requires NonZero(info.id) && info.name != [] && info.key != []
    ensures var back := Parsed(Loaded(Stored(FileText(info))));
            && (back == Some(info)
                <==> ValidUsername(info.name) && NEWLINE !in info.name && END_MARK !in info.name)
            && (NEWLINE !in info.name || END_MARK !in info.name ==> back == Some(info) || back == None)
  {
    hide Lines, ToHex, FromHex, Encode64, Decode64, UpTo, AfterLine, ValidUsername, Loaded, Stored, FileText;
    LoadedStored(FileText(info));
    WhatIsRead(info);
    TextLoads(info);
    if END_MARK in info.name {
      LinesHoldNoNewline(UpTo(info.name, END_MARK));
    }
  }

  // ---- The formats, literally ----

  /** The table of section 4 of RFC 4648. */
  lemma Alphabet(v: Sextet)
    ensures CharOf(v) as char == if v < 26 then 'A' + v as char else if v < 52 then 'a' + (v - 26) as char
                                 else if v < 62 then '0' + (v - 52) as char else if v == 62 then '+' else '/'
    ensures PAD as char == '='
  {
  }

  /** A group of three bytes, read as one number, is its four characters, read as one number. */
  lemma GroupValue(x: byte, y: byte, z: byte)
    ensures var s := Encode64([x, y, z]);
            && |s| == 4 && (forall c :: c in s ==> IsBase64(c))
            && 0x1_0000 * (x as int) + 256 * (y as int) + z as int
               == 0x4_0000 * (ValueOf(s[0]) as int) + 4096 * (ValueOf(s[1]) as int) + 64 * (ValueOf(s[2]) as int) + ValueOf(s[3]) as int
  {
    assert [x, y, z][3..] == [];
    var p, q, r := x as int, y as int, z as int;
    assert p == 4 * (p / 4) + p % 4 && q == 16 * (q / 16) + q % 16 && r == 64 * (r / 64) + r % 64;
  }

  /** A short last group is read as if zeros followed, and padded. */
  lemma ShortGroups(x: byte, y: byte)
    ensures var s, whole := Encode64([x]), Encode64([x, 0, 0]);
            |s| == |whole| == 4 && s[0] == whole[0] && s[1] == whole[1] && s[2] == s[3] == 61
    ensures var s, whole := Encode64([x, y]), Encode64([x, y, 0]);
            |s| == |whole| == 4 && s[0] == whole[0] && s[1] == whole[1] && s[2] == whole[2] && s[3] == 61
  {
    hide CharOf;
    OneGroup(x, 0, 0);
    OneGroup(x, y, 0);
  }

  lemma OneGroup(x: byte, y: byte, z: byte)
    ensures Encode64([x, y, z])
         == [CharOf(x / 4), CharOf(x % 4 * 16 + y / 16), CharOf(y % 16 * 4 + z / 64), CharOf(z % 64)]
  {
    hide CharOf;
    assert [x, y, z][3..] == [];
  }

  lemma GroupByGroup(x: byte, y: byte, z: byte, rest: Bytes)
    ensures Encode64([x, y, z] + rest) == Encode64([x, y, z]) + Encode64(rest)
  {
    assert ([x, y, z] + rest)[3..] == rest && [x, y, z][3..] == [];
    hide CharOf;
  }

  /** A text that holds a name, an id and a key: three lines, the last with or without a newline. */
  predicate Holds(text: Bytes, info: Info, hex: Bytes, key64: Bytes) {
    && 10 !in info.name && 10 !in hex && 10 !in key64
    && ValidUsername(info.name) && ValidHexUuid(hex) && FromHex(hex) == info.id
    && key64 != [] && Decode64(key64) == info.key != []
    && (text == info.name + [10] + hex + [10] + key64 || text == info.name + [10] + hex + [10] + key64 + [10])
  }

  lemma LinesCut(text: Bytes) returns (more: Bytes)
    requires text != []
    ensures var lines := Lines(text);
            && lines != [] && NEWLINE !in lines[0] && lines[1..] == Lines(more)
            && (text == lines[0] + [NEWLINE] + more || (text == lines[0] && more == []))
  {
    hide UpTo, AfterLine;
    more := AfterLine(text);
    CutLine(text);
    assert ([UpTo(text, NEWLINE)] + Lines(more))[1..] == Lines(more);
  }

  lemma CutLine(text: Bytes)
    ensures var line, more := UpTo(text, NEWLINE), AfterLine(text);
            text == line + [NEWLINE] + more || (text == line && more == [])
  {
    var line := UpTo(text, NEWLINE);
    if |line| < |text| {
      assert text == line + [text[|line|]] + text[|line| + 1..];
    }
  }

  lemma ThreeLines(text: Bytes)
    requires |Lines(text)| == 3
    ensures var l := Lines(text);
            && NEWLINE !in l[0] && NEWLINE !in l[1] && NEWLINE !in l[2]
            && (l[2] != [] ==> text == l[0] + [NEWLINE] + l[1] + [NEWLINE] + l[2]
                               || text == l[0] + [NEWLINE] + l[1] + [NEWLINE] + l[2] + [NEWLINE])
  {
    hide Lines;
    NoLines();
    var p := LinesCut(text);
    var q := LinesCut(p);
    var r := LinesCut(q);
  }

  lemma NoLines()
    ensures forall text :: Lines(text) == [] <==> text == []
  {
  }

  lemma LinesOfThree(a: Bytes, b: Bytes, c: Bytes)
    requires NEWLINE !in a && NEWLINE !in b && NEWLINE !in c && c != []
    ensures Lines(a + [NEWLINE] + b + [NEWLINE] + c) == [a, b, c]
    ensures Lines(a + [NEWLINE] + b + [NEWLINE] + c + [NEWLINE]) == [a, b, c]
  {
    hide Lines, UpTo, AfterLine;
    NoLines();
    FirstLine(c, []);
    assert Lines(c + [NEWLINE]) == [c] + [] by {
      assert c + [NEWLINE] + [] == c + [NEWLINE];
    }
    TwoMore(a, b, c);
    TwoMore(a, b, c + [NEWLINE]);
    Regrouped(a + [NEWLINE] + b + [NEWLINE], c, [NEWLINE]);
    assert [a, b] + [c] == [a, b, c];
  }

  lemma TwoMore(a: Bytes, b: Bytes, rest: Bytes)
    requires NEWLINE !in a && NEWLINE !in b
    ensures Lines(a + [NEWLINE] + b + [NEWLINE] + rest) == [a, b] + Lines(rest)
  {
    hide Lines, UpTo, AfterLine;
    FirstLine(b, rest);
    FirstLine(a, b + [NEWLINE] + rest);
    Regrouped(a + [NEWLINE], b + [NEWLINE], rest);
    Regrouped(a + [NEWLINE], b, [NEWLINE]);
    assert [a] + ([b] + Lines(rest)) == [a, b] + Lines(rest);
  }

  lemma Regrouped(a: Bytes, b: Bytes, c: Bytes)
    ensures a + (b + c) == a + b + c
  {
  }

  /** The loader accepts exactly the texts that hold something, and takes from them what they hold. */
  lemma ParsedIffHeld(text: Bytes, info: Info)
    ensures Parsed(text) == Some(info) <==> exists hex, key64 :: Holds(text, info, hex, key64)
  {
    hide Lines, Decode64, FromHex, ValidHexUuid, ValidUsername;
    if Parsed(text) == Some(info) {
      ThreeLines(text);
      assert Holds(text, info, Lines(text)[1], Lines(text)[2]);
    }
    if hex, key64 :| Holds(text, info, hex, key64) {
      LinesOfThree(info.name, hex, key64);
    }
  }
}
