/** The client's `server.info.txt`: the hand-written parser of an address and a port against
    its grammar. */
module ServerInfo {
  import opened ByteStrings
  import opened TextFiles
  import opened Hex

  const DOT: byte := 46
  const COLON: byte := 58
  const INT_MAX: nat := 0x7fff_ffff

  predicate AllDigits(s: Bytes) {
    forall c :: c in s ==> IsDigit(c)
  }

  /** The value of a string of decimal digits; leading zeros do not matter. */
  function Value(s: Bytes): nat
    requires AllDigits(s)
  {
    if s == [] then 0 else
      assert s[|s| - 1] in s;
      10 * Value(s[..|s| - 1]) + (s[|s| - 1] as int - 48)
  }

  predicate Octet(s: Bytes) {
    1 <= |s| <= 3 && AllDigits(s) && Value(s) <= 255
  }

  predicate Port(s: Bytes) {
    s != [] && AllDigits(s) && 1 <= Value(s) <= 65535
  }

  function Dotted(a: Bytes, b: Bytes, c: Bytes, d: Bytes): Bytes {
    a + [DOT] + (b + [DOT] + (c + [DOT] + d))
  }

  // ---- The grammar ----

  ghost predicate Address(s: Bytes) {
    exists a, b, c, d :: Octet(a) && Octet(b) && Octet(c) && Octet(d) && s == Dotted(a, b, c, d)
  }

  /** One line, with or without its newline, that reads `address:port`. */
  ghost predicate Denotes(text: Bytes, address: Bytes, port: nat) {
    Address(address)
    && exists p :: Port(p) && Value(p) == port
                   && (text == address + [COLON] + p || text == address + [COLON] + p + [NEWLINE])
  }

  // ---- Splitting ----

  function Split(s: Bytes): (parts: seq<Bytes>)
    ensures parts != []
    decreases |s|
  {
    var first := UpTo(s, DOT);
    if first == s then [s] else [first] + Split(s[|first| + 1..])
  }

  lemma SplitFirst(a: Bytes, rest: Bytes)
    requires DOT !in a
    ensures Split(a + [DOT] + rest) == [a] + Split(rest) && Split(a) == [a]
  {
    UpToFirst(a, DOT, rest);
    var s := a + [DOT] + rest;
    assert s[|a| + 1..] == rest && |s| > |a|;
  }

  predicate FourOctets(parts: seq<Bytes>) {
    |parts| == 4 && Octet(parts[0]) && Octet(parts[1]) && Octet(parts[2]) && Octet(parts[3])
  }

  lemma OctetHasNoDot(a: Bytes)
    requires Octet(a)
    ensures DOT !in a
  {
  }

  lemma SplitDotted(a: Bytes, b: Bytes, c: Bytes, d: Bytes)
    requires DOT !in a && DOT !in b && DOT !in c && DOT !in d
    ensures Split(Dotted(a, b, c, d)) == [a, b, c, d]
  {
    hide Split;
    SplitFirst(a, b + [DOT] + (c + [DOT] + d));
    SplitFirst(b, c + [DOT] + d);
    SplitFirst(c, d);
    SplitFirst(d, []);
    assert Split(Dotted(a, b, c, d)) == [a] + ([b] + ([c] + [d]));
  }

  lemma SplitJoins(s: Bytes) returns (more: Bytes)
    ensures |Split(s)| == 1 ==> s == Split(s)[0]
    ensures |Split(s)| > 1 ==> s == Split(s)[0] + [DOT] + more && Split(more) == Split(s)[1..]
  {
    more := [];
    var first := UpTo(s, DOT);
    if first != s {
      more := s[|first| + 1..];
      assert Split(s) == [first] + Split(more);
      hide Split, UpTo;
      CutAt(s, 0, |first|);
      assert s[0..] == s && s[0..|first|] == first;
      assert ([first] + Split(more))[1..] == Split(more);
    }
  }

  lemma FourPartsJoin(s: Bytes)
    requires |Split(s)| == 4
    ensures s == Dotted(Split(s)[0], Split(s)[1], Split(s)[2], Split(s)[3])
  {
    hide Split;
    var p := SplitJoins(s);
    var q := SplitJoins(p);
    var r := SplitJoins(q);
    var nothing := SplitJoins(r);
  }

  /** A dotted quad is exactly what splits into four octets. */
  lemma AddressIffFourOctets(s: Bytes)
    ensures Address(s) <==> FourOctets(Split(s))
  {
    hide Split, Octet, Dotted;
    if Address(s) {
      var a, b, c, d :| Octet(a) && Octet(b) && Octet(c) && Octet(d) && s == Dotted(a, b, c, d);
      OctetHasNoDot(a);
      OctetHasNoDot(b);
      OctetHasNoDot(c);
      OctetHasNoDot(d);
      SplitDotted(a, b, c, d);
    }
    if FourOctets(Split(s)) {
      FourPartsJoin(s);
    }
  }

  // ---- The parser ----

  /** `std::string::find` from a position; `None` is `npos`. */
  method Find(s: Bytes, c: byte, start: nat) returns (at: Option<nat>)
    requires start <= |s|
    ensures at.Some? ==> start <= at.value < |s| && s[at.value] == c && c !in s[start..at.value]
    ensures at.None? ==> c !in s[start..]
  {
    var i := start;
    while i < |s|
      invariant start <= i <= |s|
      invariant c !in s[start..i]
    {
      if s[i] == c {
        return Some(i);
      }
      assert s[start..i + 1] == s[start..i] + [s[i]];
      i := i + 1;
    }
    return None;
  }

  method OnlyDigits(s: Bytes) returns (only: bool)
    ensures only <==> AllDigits(s)
  {
    for i := 0 to |s|
      invariant forall j :: 0 <= j < i ==> IsDigit(s[j])
    {
      if !IsDigit(s[i]) {
        assert s[i] in s;
        return false;
      }
    }
    return true;
  }

  /** `std::stoi`, which throws when the value does not fit an `int`. */
  method Stoi(s: Bytes) returns (v: Option<nat>)
    requires s != [] && AllDigits(s)
    ensures v == if Value(s) <= INT_MAX then Some(Value(s)) else None
  {
    var n := 0;
    for i := 0 to |s|
      invariant AllDigits(s[..i]) && n == Value(s[..i])
    {
      assert s[..i + 1][..i] == s[..i] && s[i] in s;
      n := 10 * n + (s[i] as int - 48);
    }
    assert s[..|s|] == s;
    return if n <= INT_MAX then Some(n) else None;
  }

  /** The checks on one part of the address. */
  method CheckPart(part: Bytes) returns (ok: bool)
    ensures ok <==> Octet(part)
  {
    if part == [] || |part| > 3 {
      return false;
    }
    var digits := OnlyDigits(part);
    if !digits {
      return false;
    }
    var value := Stoi(part);
    if value.None? {
      return false;
    }
    return value.value <= 255;
  }

  lemma PartAtDot(address: Bytes, done: seq<Bytes>, start: nat, end: nat)
    requires start <= end < |address| && address[end] == DOT && DOT !in address[start..end]
    requires Split(address) == done + Split(address[start..])
    ensures Split(address) == done + [address[start..end]] + Split(address[end + 1..])
  {
    hide Split;
    CutAt(address, start, end);
    SplitFirst(address[start..end], address[end + 1..]);
    Reassociate(done, address[start..end], Split(address[end + 1..]));
  }

  lemma CutAt(s: Bytes, start: nat, at: nat)
    requires start <= at < |s|
    ensures s[start..] == s[start..at] + [s[at]] + s[at + 1..]
  {
  }

  lemma Reassociate(done: seq<Bytes>, part: Bytes, rest: seq<Bytes>)
    ensures done + ([part] + rest) == done + [part] + rest
  {
  }

  lemma PartAtEnd(address: Bytes, done: seq<Bytes>, start: nat)
    requires start <= |address| && DOT !in address[start..]
    requires Split(address) == done + Split(address[start..])
    ensures Split(address) == done + [address[start..]]
  {
    hide Split;
    SplitFirst(address[start..], []);
  }

  lemma PartsDecide(parts: seq<Bytes>, part: Bytes, at: nat)
    requires at < |parts| && parts[at] == part
    ensures !Octet(part) ==> !FourOctets(parts)
    ensures (forall i :: 0 <= i < |parts| ==> Octet(parts[i])) ==> (FourOctets(parts) <==> |parts| == 4)
  {
    hide Octet;
  }

  /** The loop over the parts of the address: `start` moves past each dot it finds. */
  method CheckAddress(address: Bytes) returns (ok: bool)
    ensures ok <==> Address(address)
  {
    AddressIffFourOctets(address);
    hide Split, Octet, Address, FourOctets;
    var dots, start := 0, 0;
    ghost var done: seq<Bytes> := [];
    while true
      invariant 0 <= start <= |address| && |done| == dots
      invariant forall i :: 0 <= i < |done| ==> Octet(done[i])
      invariant Split(address) == done + Split(address[start..])
      decreases |address| - start
    {
      var end := Find(address, DOT, start);
      var part := if end.Some? then address[start..end.value] else address[start..];
      if end.Some? {
        PartAtDot(address, done, start, end.value);
      } else {
        PartAtEnd(address, done, start);
      }
      PartsDecide(Split(address), part, dots);
      var valid := CheckPart(part);
      if !valid {
        return false;
      }
      done := done + [part];
      if end.None? {
        return dots == 3;
      }
      dots := dots + 1;
      start := end.value + 1;
    }
  }

  /** `validateAndLoadServerInfo`: `None` is rejection. */
  method ValidateAndLoadServerInfo(file: TextStream) returns (r: Option<(Bytes, nat)>)
    modifies file
    ensures r.Some? ==> Denotes(old(file.rest), r.value.0, r.value.1)
    ensures r.None? ==> forall address, port :: !Denotes(old(file.rest), address, port)
  {
    hide Address, Port, Lines;
    ghost var text := file.rest;
    var read := file.GetLine();
    if read.None? {
      NothingDenoted(text);
      return None;
    }
    var line := read.value;
    var eof := file.AtEof();
    if !eof {
      OneLineOnly(text);
      return None;
    }
    SingleLine(text);
    var colon := Find(line, COLON, 0);
    if colon.None? {
      assert line[0..] == line;
      NoColon(text);
      return None;
    }
    var address, portPart := line[..colon.value], line[colon.value + 1..];
    assert line == address + [COLON] + portPart && COLON !in address by {
      assert line[0..colon.value] == address;
    }
    PartsDetermined(text, address, portPart);
    var second := Find(line, COLON, colon.value + 1);
    if second.Some? {
      assert portPart[second.value - colon.value - 1] == COLON;
      PortHasNoColon(portPart);
      return None;
    }
    if address == [] || portPart == [] {
      EmptyAddress();
      EmptyPort();
      return None;
    }
    var digits := OnlyDigits(portPart);
    if !digits {
      NonDigitPort(portPart);
      return None;
    }
    var parsed := Stoi(portPart);
    PortValue(portPart);
    if parsed.None? {
      return None;
    }
    if parsed.value < 1 || parsed.value > 65535 {
      return None;
    }
    var ok := CheckAddress(address);
    if !ok {
      return None;
    }
    return Some((address, parsed.value));
  }

  // ---- What the checks decide ----

  lemma AddressAlphabet(s: Bytes)
    requires Address(s)
    ensures s != [] && forall c :: c in s ==> IsDigit(c) || c == DOT
  {
  }

  lemma EmptyAddress()
    ensures !Address([])
  {
  }

  lemma EmptyPort()
    ensures !Port([])
  {
  }

  lemma NonDigitPort(p: Bytes)
    requires !AllDigits(p)
    ensures !Port(p)
  {
  }

  lemma PortHasNoColon(p: Bytes)
    requires COLON in p
    ensures !Port(p)
  {
  }

  lemma PortValue(p: Bytes)
    requires p != [] && AllDigits(p)
    ensures Port(p) <==> 1 <= Value(p) <= 65535
  {
  }

  lemma LineOf(address: Bytes, p: Bytes)
    requires Address(address) && Port(p)
    ensures var line := address + [COLON] + p;
            && NEWLINE !in line && line != [] && COLON !in address
            && UpTo(line, NEWLINE) == line && AfterLine(line) == []
            && UpTo(line + [NEWLINE], NEWLINE) == line && AfterLine(line + [NEWLINE]) == []
  {
    var line := address + [COLON] + p;
    AddressAlphabet(address);
    FirstLine(line, []);
    assert line + [NEWLINE] + [] == line + [NEWLINE];
  }

  lemma NothingDenoted(text: Bytes)
    requires text == []
    ensures forall address, port :: !Denotes(text, address, port)
  {
  }

  lemma OneLineOnly(text: Bytes)
    requires AfterLine(text) != []
    ensures forall address, port :: !Denotes(text, address, port)
  {
    forall address, port ensures !Denotes(text, address, port) {
      if Denotes(text, address, port) {
        var p :| Port(p) && (text == address + [COLON] + p || text == address + [COLON] + p + [NEWLINE]);
        LineOf(address, p);
      }
    }
  }

  lemma SingleLine(text: Bytes)
    requires text != [] && AfterLine(text) == []
    ensures var line := UpTo(text, NEWLINE); text == line || text == line + [NEWLINE]
  {
  }

  lemma HasColon(address: Bytes, p: Bytes)
    ensures COLON in address + [COLON] + p
  {
  }

  lemma NoColon(text: Bytes)
    requires COLON !in UpTo(text, NEWLINE)
    ensures forall address, port :: !Denotes(text, address, port)
  {
    forall address, port ensures !Denotes(text, address, port) {
      if Denotes(text, address, port) {
        var p :| Port(p) && (text == address + [COLON] + p || text == address + [COLON] + p + [NEWLINE]);
        HasColon(address, p);
        LineOf(address, p);
      }
    }
  }

  /** The first colon of the line settles the address and the port. */
  lemma PartsDetermined(text: Bytes, address: Bytes, p: Bytes)
    requires text != [] && AfterLine(text) == []
    requires UpTo(text, NEWLINE) == address + [COLON] + p && COLON !in address
    ensures forall a, n :: Denotes(text, a, n) <==> a == address && Address(address) && Port(p) && n == Value(p)
  {
    SingleLine(text);
    forall a, n ensures Denotes(text, a, n) <==> a == address && Address(address) && Port(p) && n == Value(p) {
      if Denotes(text, a, n) {
        var q :| Port(q) && Value(q) == n && (text == a + [COLON] + q || text == a + [COLON] + q + [NEWLINE]);
        LineOf(a, q);
        assert a + [COLON] + q == address + [COLON] + p;
        UpToFirst(a, COLON, q);
        UpToFirst(address, COLON, p);
        assert q == (a + [COLON] + q)[|a| + 1..] == p;
      }
    }
  }

  // ---- Base ten ----

  /** Up to three digits stand for units, tens and hundreds. */
  lemma SmallValues(a: byte, b: byte, c: byte)
    requires IsDigit(a) && IsDigit(b) && IsDigit(c)
    ensures Value([c]) == c as char as int - '0' as int
    ensures Value([b, c]) == 10 * (b as char as int - '0' as int) + (c as char as int - '0' as int)
    ensures Value([a, b, c]) == 100 * (a as char as int - '0' as int) + 10 * (b as char as int - '0' as int)
                                + (c as char as int - '0' as int)
  {
    assert [c][..0] == [] && [b, c][..1] == [b] && [a, b, c][..2] == [a, b] && [b][..0] == [] && [a, b][..1] == [a] && [a][..0] == [];
    assert Value([]) == 0 && Value([c]) == c - 48 && Value([b]) == b - 48 && Value([a]) == a - 48;
    assert Value([a, b]) == 10 * Value([a]) + (b - 48);
  }

  /** `std::to_string`, which the client uses on the port. */
  function Printed(n: nat): Bytes {
    if n < 10 then [48 + n] else Printed(n / 10) + [48 + n % 10]
  }

  /** The value of a printed number is the number. */
  lemma {:induction false} ValuePrinted(n: nat)
    ensures AllDigits(Printed(n)) && Value(Printed(n)) == n
  {
    if n >= 10 {
      ValuePrinted(n / 10);
      assert Printed(n)[..|Printed(n)| - 1] == Printed(n / 10);
    } else {
      assert [48 + n][..0] == [];
    }
  }

  /** The characters that separate and make up the parts. */
  lemma Characters()
    ensures DOT as char == '.' && COLON as char == ':' && NEWLINE as char == '\n'
    ensures forall c: byte :: IsDigit(c) <==> '0' <= c as char <= '9'
  {
  }

  /** A part of the address is what fits a byte, and a port what `static_cast<uint16_t>` keeps,
      zero excluded. */
  lemma Ranges(s: Bytes)
    ensures Octet(s) <==> 1 <= |s| <= 3 && AllDigits(s) && Value(s) % 0x100 == Value(s)
    ensures Port(s) <==> s != [] && AllDigits(s) && Value(s) != 0 && Value(s) % 0x1_0000 == Value(s)
  {
  }
}
