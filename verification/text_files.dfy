/** Text files on Windows: what text mode writes and reads back, and reading line by line as
    `std::getline` does. */
module TextFiles {
  import opened ByteStrings

  const NEWLINE: byte := 10
  const RETURN: byte := 13
  const END_MARK: byte := 26 // ends a text on reading

  /** What lands on the disk: each newline gets a return before it. */
  function Stored(text: Bytes): Bytes {
    if text == [] then []
    else (if text[0] == NEWLINE then [RETURN, NEWLINE] else [text[0]]) + Stored(text[1..])
  }

  /** What a stream delivers of it. */
  function Loaded(disk: Bytes): Bytes {
    if disk == [] || disk[0] == END_MARK then []
    else if |disk| > 1 && disk[0] == RETURN && disk[1] == NEWLINE then [NEWLINE] + Loaded(disk[2..])
    else [disk[0]] + Loaded(disk[1..])
  }

  lemma LoadedFirst(c: byte, disk: Bytes)
    requires c != END_MARK && (disk != [] ==> disk[0] != NEWLINE)
    ensures Loaded([c] + disk) == [c] + Loaded(disk)
    ensures Loaded([RETURN, NEWLINE] + disk) == [NEWLINE] + Loaded(disk)
  {
    assert ([c] + disk)[1..] == disk && ([RETURN, NEWLINE] + disk)[2..] == disk;
  }

  /** Text mode gives back what was written, up to the first end mark. */
  lemma {:induction false} LoadedStored(text: Bytes)
    ensures Loaded(Stored(text)) == UpTo(text, 26)
  {
    if text != [] && text[0] != END_MARK {
      LoadedStored(text[1..]);
      LoadedFirst(text[0], Stored(text[1..]));
    }
  }

  /** What is left after the first line and its newline. */
  function AfterLine(text: Bytes): Bytes {
    var line := UpTo(text, NEWLINE);
    if |line| < |text| then text[|line| + 1..] else []
  }

  /** The lines that successive reads return; a newline at the end opens no further line. */
  function Lines(text: Bytes): seq<Bytes>
    decreases |text|
  {
    if text == [] then [] else [UpTo(text, NEWLINE)] + Lines(AfterLine(text))
  }

  class TextStream {
    var rest: Bytes

    constructor (text: Bytes)
      ensures rest == text
    {
      rest := text;
    }

    /** `None` is the failure of a read at the end of the file. */
    method GetLine() returns (line: Option<Bytes>)
      modifies this
      ensures line.None? <==> old(rest) == []
      ensures line.Some? ==> line.value == UpTo(old(rest), NEWLINE) && rest == AfterLine(old(rest))
      ensures line.None? ==> rest == []
      ensures Lines(old(rest)) == if line.Some? then [line.value] + Lines(rest) else []
    {
      if rest == [] {
        return None;
      }
      var l := UpTo(rest, NEWLINE);
      rest := AfterLine(rest);
      return Some(l);
    }

    method AtEof() returns (eof: bool)
      ensures eof <==> rest == []
    {
      eof := rest == [];
    }
  }

  lemma FirstLine(a: Bytes, rest: Bytes)
    requires NEWLINE !in a
    ensures UpTo(a + [NEWLINE] + rest, NEWLINE) == a && AfterLine(a + [NEWLINE] + rest) == rest
    ensures Lines(a + [NEWLINE] + rest) == [a] + Lines(rest)
    ensures UpTo(a, NEWLINE) == a && AfterLine(a) == []
    ensures a != [] ==> Lines(a) == [a]
  {
    UpToFirst(a, NEWLINE, rest);
  }

  /** Text before a newline never merges with what follows it. */
  lemma {:induction false} LinesAtLeast(a: Bytes, rest: Bytes)
    ensures |Lines(a + [NEWLINE] + rest)| >= 1 + |Lines(rest)|
    ensures NEWLINE in a ==> |Lines(a + [NEWLINE] + rest)| >= 2 + |Lines(rest)|
    decreases |a|
  {
    hide Lines, UpTo, AfterLine;
    var first := UpTo(a, NEWLINE);
    if first == a {
      FirstLine(a, rest);
    } else {
      var more := a[|first| + 1..];
      assert a == first + [NEWLINE] + more;
      LinesAtLeast(more, rest);
      FirstLine(first, more + [NEWLINE] + rest);
      assert a + [NEWLINE] + rest == first + [NEWLINE] + (more + [NEWLINE] + rest);
    }
  }

  /** Before each newline on the disk there is a return. */
  lemma {:induction false} StoredNewlines(text: Bytes)
    ensures forall i :: 0 <= i < |Stored(text)| && Stored(text)[i] == 10 ==> i > 0 && Stored(text)[i - 1] == 13
  {
    if text != [] {
      StoredNewlines(text[1..]);
      var first := if text[0] == NEWLINE then [RETURN, NEWLINE] else [text[0]];
      assert Stored(text) == first + Stored(text[1..]);
    }
  }
}
