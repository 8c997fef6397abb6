/** The research stream's line framing: text arrives in arbitrary pieces, lines leave whole. */
module LineFramer {
  import opened Results

  const NEWLINE: char := '\n'

  predicate NoNewline(line: string) {
    NEWLINE !in line
  }

  /** The pieces of a text that starts with `c` and goes on as `rest`. */
  function Prepend(c: char, rest: seq<string>): (pieces: seq<string>)
    requires rest != []
    ensures pieces != []
  {
    if c == NEWLINE then [""] + rest else [[c] + rest[0]] + rest[1..]
  }

  /** `text.split("\n")`: always at least one piece. */
  function Split(text: string): (pieces: seq<string>)
    ensures pieces != []
    decreases text
  {
    if text == "" then [""] else Prepend(text[0], Split(text[1..]))
  }

  /** The pieces with a newline between each two. */
  function Join(pieces: seq<string>): string
    requires pieces != []
    decreases pieces
  {
    if |pieces| == 1 then pieces[0] else pieces[0] + [NEWLINE] + Join(pieces[1..])
  }

  predicate WholeLines(pieces: seq<string>) {
    pieces != [] && forall i | 0 <= i < |pieces| :: NoNewline(pieces[i])
  }

  /** What splitting means, without its recursion: the pieces hold no newline and join back to the
      text, and no other pieces do. */
  lemma {:induction false} SplitIsJoinInverse(text: string)
    ensures WholeLines(Split(text)) && Join(Split(text)) == text
    decreases text
  {
    if text != "" {
      SplitIsJoinInverse(text[1..]);
      var rest := Split(text[1..]);
      if text[0] == NEWLINE {
        assert Split(text)[1..] == rest;
        assert Join(Split(text)) == [NEWLINE] + text[1..];
      } else {
        assert Split(text)[1..] == rest[1..];
        assert Join(Split(text)) == [text[0]] + Join(rest);
      }
    }
  }

  lemma {:induction false} SplitOfJoin(pieces: seq<string>)
    requires WholeLines(pieces)
    ensures Split(Join(pieces)) == pieces
    decreases |pieces|, |pieces[0]|
  {
    var text := Join(pieces);
    if pieces[0] == "" {
      if |pieces| > 1 {
        SplitOfJoin(pieces[1..]);
        assert text[1..] == Join(pieces[1..]);
      }
    } else {
      var c, shorter := pieces[0][0], [pieces[0][1..]] + pieces[1..];
      assert c in pieces[0];
      assert shorter[1..] == pieces[1..];
      SplitOfJoin(shorter);
      assert text[1..] == Join(shorter);
      assert [c] + pieces[0][1..] == pieces[0];
    }
  }

  function AllButLast(pieces: seq<string>): seq<string>
    requires pieces != []
  {
    pieces[..|pieces| - 1]
  }

  function Last(pieces: seq<string>): string
    requires pieces != []
  {
    pieces[|pieces| - 1]
  }

  /** More text only touches the last piece. */
  lemma {:induction false} SplitAppend(text: string, more: string)
    ensures Split(text + more) == AllButLast(Split(text)) + Split(Last(Split(text)) + more)
    decreases text
  {
    if text == "" {
      assert text + more == more;
    } else {
      SplitAppend(text[1..], more);
      assert (text + more)[1..] == text[1..] + more;
      PrependAppend(text[0], Split(text[1..]), more);
    }
  }

  lemma PrependAppend(c: char, rest: seq<string>, more: string)
    requires rest != []
    ensures Prepend(c, AllButLast(rest) + Split(Last(rest) + more)) ==
      AllButLast(Prepend(c, rest)) + Split(Last(Prepend(c, rest)) + more)
  {
    if c == NEWLINE {
      PrependEmpty(rest, Split(Last(rest) + more));
    } else if |rest| == 1 {
      PrependOnly(c, rest[0], more);
      assert rest == [rest[0]];
    } else {
      PrependFirst(c, rest, Split(Last(rest) + more));
    }
  }

  lemma PrependEmpty(rest: seq<string>, tail: seq<string>)
    requires rest != [] && tail != []
    ensures Prepend(NEWLINE, AllButLast(rest) + tail) == AllButLast(Prepend(NEWLINE, rest)) + tail
  {
    assert AllButLast([""] + rest) == [""] + AllButLast(rest);
    assert [""] + (AllButLast(rest) + tail) == [""] + AllButLast(rest) + tail;
  }

  lemma PrependOnly(c: char, only: string, more: string)
    requires c != NEWLINE
    ensures Prepend(c, AllButLast([only]) + Split(Last([only]) + more)) ==
      AllButLast(Prepend(c, [only])) + Split(Last(Prepend(c, [only])) + more)
  {
    SplitPrefix(c, only + more);
    assert [c] + only + more == [c] + (only + more);
    assert [] + Split(only + more) == Split(only + more);
    assert [] + Split([c] + only + more) == Split([c] + only + more);
  }

  lemma PrependFirst(c: char, rest: seq<string>, tail: seq<string>)
    requires |rest| > 1 && c != NEWLINE
    ensures Prepend(c, AllButLast(rest) + tail) == AllButLast(Prepend(c, rest)) + tail
  {
    var first := [[c] + rest[0]];
    assert (AllButLast(rest) + tail)[1..] == AllButLast(rest)[1..] + tail;
    assert AllButLast(first + rest[1..]) == first + AllButLast(rest)[1..];
  }

  lemma SplitPrefix(c: char, text: string)
    ensures Split([c] + text) == Prepend(c, Split(text))
  {
    assert ([c] + text)[1..] == text;
  }

  function Concat(chunks: seq<string>): string {
    if chunks == [] then "" else Concat(chunks[..|chunks| - 1]) + chunks[|chunks| - 1]
  }

  // ---------------------------------------------------------------- the loop

  /** The characters that trimming removes. */
  const BLANKS :=
    " \t\n\r\U{B}\U{C}\U{A0}\U{1680}\U{2000}\U{2001}\U{2002}\U{2003}\U{2004}" +
    "\U{2005}\U{2006}\U{2007}\U{2008}\U{2009}\U{200A}\U{2028}\U{2029}\U{202F}\U{205F}\U{3000}\U{FEFF}"

  function Trim(text: string): string
    decreases |text|
  {
    if text != "" && text[0] in BLANKS then Trim(text[1..])
    else if text != "" && text[|text| - 1] in BLANKS then Trim(text[..|text| - 1])
    else text
  }

  /** What a line hands on: the trimmed text of a data line, unless it is the end marker. */
  function Payload(line: string): Option<string> {
    if "data:" <= line && Trim(line[5..]) != "[DONE]" then Some(Trim(line[5..])) else None
  }

  function Payloads(lines: seq<string>): seq<string> {
    if lines == [] then [] else
    Payloads(lines[..|lines| - 1]) + (var p := Payload(lines[|lines| - 1]); if p.Some? then [p.value] else [])
  }

  lemma {:induction false} PayloadsAppend(lines: seq<string>, more: seq<string>)
    ensures Payloads(lines + more) == Payloads(lines) + Payloads(more)
    decreases more
  {
    if more == [] {
      assert lines + more == lines;
    } else {
      PayloadsAppend(lines, more[..|more| - 1]);
      assert (lines + more)[..|lines + more| - 1] == lines + more[..|more| - 1];
    }
  }

  method Handle(lines: seq<string>) returns (events: seq<string>)
    ensures events == Payloads(lines)
  {
    events := [];
    for j := 0 to |lines|
      invariant events == Payloads(lines[..j])
    {
      assert lines[..j + 1][..j] == lines[..j];
      var p := Payload(lines[j]);
      if p.Some? { events := events + [p.value]; }
    }
    assert lines[..|lines|] == lines;
  }

  /** One more chunk: what it completes joins the lines handled before. */
  lemma ChunkStep(handled: seq<string>, buffer: string, text: string, chunk: string)
    requires handled + [buffer] == Split(text)
    ensures var pieces := Split(buffer + chunk);
      handled + AllButLast(pieces) + [Last(pieces)] == Split(text + chunk)
  {
    SplitAppend(text, chunk);
    Parts(handled, buffer);
    Regroup(handled, Split(buffer + chunk));
  }

  lemma Parts(front: seq<string>, last: string)
    ensures AllButLast(front + [last]) == front && Last(front + [last]) == last
  {}

  lemma Regroup(front: seq<string>, pieces: seq<string>)
    requires pieces != []
    ensures front + AllButLast(pieces) + [Last(pieces)] == front + pieces
  {}

  /** The payloads handed on for a stream cut into `chunks`, and the text left in the buffer when the
      stream ends: they depend on the text alone, not on where it was cut. */
  method Stream(chunks: seq<string>) returns (events: seq<string>, buffer: string)
    ensures events == Payloads(AllButLast(Split(Concat(chunks))))
    ensures buffer == Last(Split(Concat(chunks))) && NoNewline(buffer)
  {
    events, buffer := [], "";
    ghost var handled: seq<string> := [];
    for k := 0 to |chunks|
      invariant handled + [buffer] == Split(Concat(chunks[..k]))
      invariant events == Payloads(handled)
    {
      assert chunks[..k + 1][..k] == chunks[..k];
      ChunkStep(handled, buffer, Concat(chunks[..k]), chunks[k]);
      buffer := buffer + chunks[k];
      var pieces := Split(buffer);
      var lines := pieces[..|pieces| - 1];
      buffer := pieces[|pieces| - 1];
      var more := Handle(lines);
      PayloadsAppend(handled, lines);
      events := events + more;
      handled := handled + lines;
    }
    assert chunks[..|chunks|] == chunks;
    Parts(handled, buffer);
    SplitIsJoinInverse(Concat(chunks));
  }

  /** A text that ends in a newline is handled completely; any other text loses its last line, which
      stays in the buffer when the stream ends. */
  lemma {:induction false} LeftoverIsLost(text: string)
    ensures Last(Split(text)) == "" <==> text == "" || text[|text| - 1] == NEWLINE
    decreases text
  {
    if |text| > 1 {
      LeftoverIsLost(text[1..]);
      SplitIsJoinInverse(text[1..]);
      var rest := Split(text[1..]);
      if |rest| == 1 {
        assert text[|text| - 1] == text[1..][|text| - 2];
        assert text[|text| - 1] in rest[0];
      }
    } else if |text| == 1 {
      assert Split(text[1..]) == [""];
    }
  }

  /** The line end is the line feed alone: two texts without one, with one between them, are two lines, and a
      carriage return ends none. */
  lemma LinesEndAtLineFeeds(left: string, right: string)
    requires '\n' !in left && '\n' !in right
    ensures Split(left + "\n" + right) == [left, right]
    ensures Split(left + "\r" + right) == [left + "\r" + right]
  {
    var pieces, whole := [left, right], [left + "\r" + right];
    assert pieces[1..] == [right];
    assert Join(pieces) == left + "\n" + right;
    assert Join(whole) == left + "\r" + right;
    SplitOfJoin(pieces);
    SplitOfJoin(whole);
  }

  // ---------------------------------------------------------------- what a line hands on

  /** The characters are those that JavaScript trims: tab to carriage return, space, no-break space, the
      Unicode spaces, the two separators and the byte order mark. */
  lemma BlanksExactly(c: char)
    ensures c in BLANKS <==>
      var n := c as int;
      9 <= n <= 13 || n == 32 || n == 160 || n == 5_760 || 8_192 <= n <= 8_202 || n == 8_232 || n == 8_233 ||
      n == 8_239 || n == 8_287 || n == 12_288 || n == 65_279
  {}

  predicate Blank(text: string) {
    forall c <- text :: c in BLANKS
  }

  /** Nothing to trim at either end. */
  predicate Trimmed(text: string) {
    text != "" ==> text[0] !in BLANKS && text[|text| - 1] !in BLANKS
  }

  /** Trimming takes off all blanks at both ends and nothing else. */
  lemma {:induction false} TrimExactly(left: string, core: string, right: string)
    requires Blank(left) && Trimmed(core) && Blank(right)
    ensures Trim(left + core + right) == core
    decreases |left| + |right|
  {
    var text := left + core + right;
    if left != "" {
      assert text[0] == left[0] && text[1..] == left[1..] + core + right;
      TrimExactly(left[1..], core, right);
    } else if right != "" {
      var shorter := right[..|right| - 1];
      assert text[|text| - 1] == right[|right| - 1];
      assert text[..|text| - 1] == left + core + shorter;
      if core == "" {
        assert text == right && text[1..] == "" + core + right[1..];
        TrimExactly("", core, right[1..]);
      } else {
        assert text[0] == core[0];
        TrimExactly(left, core, shorter);
      }
    } else {
      assert text == core;
    }
  }

  /** A data line hands on its rest without the blanks around it, unless that is the end marker; any other
      line hands on nothing. */
  lemma PayloadExactly(left: string, core: string, right: string, line: string)
    requires Blank(left) && Trimmed(core) && Blank(right)
    ensures Payload("data:" + left + core + right) == if core == "[DONE]" then None else Some(core)
    ensures !("data:" <= line) ==> Payload(line) == None
    ensures Payload(line).Some? ==> Trimmed(Payload(line).value)
  {
    var text := "data:" + left + core + right;
    assert text[5..] == left + core + right;
    assert "data:" <= text;
    TrimExactly(left, core, right);
    if "data:" <= line { TrimLeavesTrimmed(line[5..]); }
  }

  lemma {:induction false} TrimLeavesTrimmed(text: string)
    ensures Trimmed(Trim(text))
    decreases |text|
  {
    if text != "" && text[0] in BLANKS {
      TrimLeavesTrimmed(text[1..]);
    } else if text != "" && text[|text| - 1] in BLANKS {
      TrimLeavesTrimmed(text[..|text| - 1]);
    }
  }
}
