/** What a user types, as text. */
module Texts {
  import opened ByteStrings
  import opened TextFiles
  import opened ClientActions

  /** The message is the lines before the first empty one, each followed by a newline: reading it
      line by line gives back exactly those lines. */
  lemma {:induction false} TypedReadsBack(lines: seq<Bytes>, n: nat)
    requires n <= |lines| && (n == |lines| || lines[n] == [])
    requires forall i :: 0 <= i < n ==> lines[i] != [] && 10 !in lines[i]
    ensures Lines(Typed(lines)) == lines[..n]
    ensures Typed(lines) == [] <==> n == 0
    ensures n > 0 ==> Typed(lines)[|Typed(lines)| - 1] == 10
    decreases n
  {
    hide Lines, UpTo, AfterLine, Typed;
    if n == 0 {
      TypedNothing(lines);
    } else {
      TypedFirst(lines);
      TypedReadsBack(lines[1..], n - 1);
      FirstLine(lines[0], Typed(lines[1..]));
      assert lines[..n] == [lines[0]] + lines[1..][..n - 1];
    }
  }

  lemma TypedFirst(lines: seq<Bytes>)
    requires lines != [] && lines[0] != []
    ensures Typed(lines) == lines[0] + [NEWLINE] + Typed(lines[1..])
  {
  }

  lemma TypedNothing(lines: seq<Bytes>)
    requires lines == [] || lines[0] == []
    ensures Typed(lines) == [] && Lines([]) == [] && lines[..0] == []
  {
  }

  /** What cancels a prompt is the single character "0". */
  lemma CancelIsZero()
    ensures |CANCEL| == 1 && CANCEL[0] as char == '0'
  {
  }
}
