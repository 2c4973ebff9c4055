/** Newline-terminated text. */
module Lines {
  import opened Text

  /** Where the first line ends: at its newline, or at the end of the content. */
  function LineEnd(content: Str): (n: nat)
    ensures n <= |content|
    ensures forall i :: 0 <= i < n ==> content[i] != NEWLINE
    ensures n < |content| ==> content[n] == NEWLINE
  {
    if content == [] || content[0] == NEWLINE then 0
    else
      var n := LineEnd(content[1..]);
      assert forall i :: 1 <= i < n + 1 ==> content[i] == content[1..][i - 1];
      n + 1
  }

  lemma LineEndIs(content: Str, n: nat)
    requires n < |content| && content[n] == NEWLINE && NEWLINE !in content[..n]
    ensures LineEnd(content) == n
  {
    assert forall i :: 0 <= i < n ==> content[i] == content[..n][i];
  }

  /** The lines with a newline behind each. */
  function Unlines(lines: seq<Str>): Str {
    if lines == [] then [] else Unlines(lines[..|lines| - 1]) + lines[|lines| - 1] + [NEWLINE]
  }

  lemma UnlinesAppend(lines: seq<Str>, line: Str)
    ensures Unlines(lines + [line]) == Unlines(lines) + line + [NEWLINE]
  {
    assert (lines + [line])[..|lines|] == lines;
  }

  lemma {:induction false} UnlinesFront(lines: seq<Str>)
    requires lines != []
    ensures Unlines(lines) == lines[0] + [NEWLINE] + Unlines(lines[1..])
  {
    if |lines| > 1 {
      UnlinesFront(lines[..|lines| - 1]);
      assert lines[..|lines| - 1][1..] == lines[1..][..|lines| - 2];
    }
  }

  lemma NoLines()
    ensures Unlines([]) == []
  {
  }
}
