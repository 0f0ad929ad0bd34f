/** Lines of the client's byte stream. */
module Lines {
  import opened Basics

  const MAX_LINE_LENGTH: nat := 1500

  datatype Read = Line(line: Bytes, rest: Bytes) | AtEof | TooLong | EofInLine

  // What reading one line of a byte stream gives, however the bytes arrive.
  function NextLine(s: Bytes): (r: Read)
    ensures r.Line? ==> r.line + r.rest == s && r.line != [] && |r.line| <= MAX_LINE_LENGTH
    ensures r.Line? ==> Last(r.line) == LF && LF !in Init(r.line)
    ensures r.AtEof? <==> s == []
  {
    if s == [] then AtEof else
      var n := IndexOf(s, LF);
      if n < |s| then
        if n + 1 > MAX_LINE_LENGTH then TooLong else Line(s[..n + 1], s[n + 1..])
      else
        if n > MAX_LINE_LENGTH then TooLong else EofInLine
  }

  // A terminated line of legal length at the head of the stream is the next line.
  lemma NextLineOf(body: Bytes, rest: Bytes)
    requires LF !in body && |body| < MAX_LINE_LENGTH
    ensures NextLine(body + [LF] + rest) == Line(body + [LF], rest)
  {
    var s := body + [LF] + rest;
    assert s[..|body|] == body && s[..|body| + 1] == body + [LF] && s[|body| + 1..] == rest;
    IndexOfUnique(s, LF, |body|);
  }

  // What reading gives, in numbers: a line is found within the first 1500 bytes, or there is none.
  lemma NextLineIff(s: Bytes)
    ensures NextLine(s).TooLong? <==> |s| > 1500 && LF !in s[..1500]
    ensures NextLine(s).EofInLine? <==> 0 < |s| <= 1500 && LF !in s
    ensures NextLine(s).AtEof? <==> s == []
    ensures NextLine(s).Line? <==> if |s| <= 1500 then LF in s else LF in s[..1500]
  {
    var n := IndexOf(s, LF);
    if n < 1500 && n < |s| {
      var first := if |s| <= 1500 then s else s[..1500];
      assert first[n] == LF;
    } else {
      assert s[..n][..if n <= 1500 then n else 1500] == s[..if n <= 1500 then n else 1500];
      assert n == |s| ==> s[..n] == s;
      if n >= 1500 {
        assert s[..1500] == s[..n][..1500];
        assert forall i :: 0 <= i < 1500 ==> s[..1500][i] == s[..n][i];
      }
    }
  }
}
