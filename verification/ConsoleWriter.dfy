/** The console writer, which only lets whole lines through, so that they do not mix with the
    progress line. */
module ConsoleWriter {
  datatype Fd = Out | Err

  datatype Chunk = Chunk(fd: Fd, text: string)

  /** What was emitted on each stream, and what was held back. */
  datatype Console = Console(out: string, err: string, leftoverOut: string, leftoverErr: string)

  const START := Console("", "", "", "")

  function Emitted(c: Console, fd: Fd): string {
    if fd == Out then c.out else c.err
  }

  function Leftover(c: Console, fd: Fd): string {
    if fd == Out then c.leftoverOut else c.leftoverErr
  }

  /** Everything up to the last newline, and everything behind it. */
  function Lines(s: string): (r: string)
    ensures |r| <= |s|
  {
    if s == [] || s[|s| - 1] == '\n' then s else Lines(s[..|s| - 1])
  }

  function Rest(s: string): string {
    s[|Lines(s)|..]
  }

  function Update(c: Console, fd: Fd, emitted: string, leftover: string): Console {
    if fd == Out then c.(out := emitted, leftoverOut := leftover) else c.(err := emitted, leftoverErr := leftover)
  }

  function Write(c: Console, k: Chunk): Console {
    var held := Leftover(c, k.fd);
    if '\n' !in k.text then Update(c, k.fd, Emitted(c, k.fd), held + k.text)
    else Update(c, k.fd, Emitted(c, k.fd) + (held + Lines(k.text)), Rest(k.text))
  }

  function Run(chunks: seq<Chunk>): Console {
    if chunks == [] then START else Write(Run(chunks[..|chunks| - 1]), chunks[|chunks| - 1])
  }

  /** The end of the program: what was held back is emitted, and kept. */
  function Dump(c: Console): Console {
    c.(out := c.out + c.leftoverOut, err := c.err + c.leftoverErr)
  }

  /** Everything written to a stream. */
  function Written(chunks: seq<Chunk>, fd: Fd): string {
    if chunks == [] then ""
    else Written(chunks[..|chunks| - 1], fd) + (if chunks[|chunks| - 1].fd == fd then chunks[|chunks| - 1].text else "")
  }

  lemma LinesShape(s: string)
    ensures Lines(s) + Rest(s) == s
    ensures Lines(s) != [] ==> Lines(s)[|Lines(s)| - 1] == '\n'
    ensures '\n' !in Rest(s)
    ensures '\n' in s <==> Lines(s) != []
  {
    if s != [] && s[|s| - 1] != '\n' {
      var prev := s[..|s| - 1];
      LinesShape(prev);
      assert s == prev + [s[|s| - 1]];
      assert Rest(s) == Rest(prev) + [s[|s| - 1]];
    }
  }

  /** The split is the only one into whole lines and a piece without a newline. */
  lemma {:induction false} SplitUnique(s: string, lines: string, rest: string)
    requires s == lines + rest && '\n' !in rest && (lines != [] ==> lines[|lines| - 1] == '\n')
    ensures lines == Lines(s) && rest == Rest(s)
  {
    if rest == [] {
      assert s == lines;
    } else {
      assert s[|s| - 1] == rest[|rest| - 1];
      assert rest[|rest| - 1] in rest;
      assert s[..|s| - 1] == lines + rest[..|rest| - 1];
      SplitUnique(s[..|s| - 1], lines, rest[..|rest| - 1]);
    }
  }

  lemma Associative(a: string, b: string, c: string)
    ensures (a + b) + c == a + (b + c)
  {
  }

  lemma LinesAppendLine(w: string, text: string)
    requires '\n' in text
    ensures Lines(w + text) == w + Lines(text) && Rest(w + text) == Rest(text)
  {
    LinesShape(text);
    var l := Lines(text);
    Associative(w, l, Rest(text));
    assert (w + l)[|w + l| - 1] == l[|l| - 1];
    SplitUnique(w + text, w + l, Rest(text));
  }

  lemma LinesAppendPiece(w: string, text: string)
    requires '\n' !in text
    ensures Lines(w + text) == Lines(w) && Rest(w + text) == Rest(w) + text
  {
    LinesShape(w);
    Associative(Lines(w), Rest(w), text);
    SplitUnique(w + text, Lines(w), Rest(w) + text);
  }

  /** One more piece. */
  lemma WriteExtends(c: Console, k: Chunk, w: string)
    requires Emitted(c, k.fd) == Lines(w) && Leftover(c, k.fd) == Rest(w)
    ensures Emitted(Write(c, k), k.fd) == Lines(w + k.text) && Leftover(Write(c, k), k.fd) == Rest(w + k.text)
  {
    if '\n' in k.text {
      LinesAppendLine(w, k.text);
      LinesShape(w);
      Associative(Lines(w), Rest(w), Lines(k.text));
    } else {
      LinesAppendPiece(w, k.text);
    }
  }

  /** However what is written to a stream is cut into pieces, and whatever goes to the other stream:
      emitted are its whole lines, held back is the rest, and nothing is lost, added or reordered. */
  lemma {:induction false} WholeLinesEmitted(chunks: seq<Chunk>, fd: Fd)
    ensures Emitted(Run(chunks), fd) == Lines(Written(chunks, fd))
    ensures Leftover(Run(chunks), fd) == Rest(Written(chunks, fd))
  {
    if chunks != [] {
      var prev, k := chunks[..|chunks| - 1], chunks[|chunks| - 1];
      WholeLinesEmitted(prev, fd);
      var w := Written(prev, fd);
      if k.fd == fd {
        WriteExtends(Run(prev), k, w);
      } else {
        assert Written(chunks, fd) == w;
      }
    }
  }

  /** At the end everything comes out, exactly once if it is asked for once. */
  lemma DumpCompletes(chunks: seq<Chunk>, fd: Fd)
    ensures Emitted(Dump(Run(chunks)), fd) == Written(chunks, fd)
    ensures Emitted(Dump(Dump(Run(chunks))), fd) == Written(chunks, fd) <==> Rest(Written(chunks, fd)) == ""
  {
    WholeLinesEmitted(chunks, fd);
    LinesShape(Written(chunks, fd));
  }

  /** A text without a newline is repeated. */
  lemma DumpRepeats(text: string)
    requires text != "" && '\n' !in text
    ensures var c := Run([Chunk(Out, text)]); c.out == "" && Dump(c).out == text && Dump(Dump(c)).out == text + text
  {
    var chunks := [Chunk(Out, text)];
    assert chunks[..0] == [];
    assert Run(chunks) == Write(START, chunks[0]);
  }

  // ---------------------------------------------------------------- the console object

  class ConsoleGui {
    var leftoverOut: string
    var leftoverErr: string
    /** What has gone to the two file descriptors. */
    var out: string
    var err: string

    function View(): Console
      reads this
    {
      Console(out, err, leftoverOut, leftoverErr)
    }

    constructor ()
      ensures View() == START
    {
      leftoverOut, leftoverErr, out, err := "", "", "", "";
    }

    /** The index of the last newline, or -1. */
    static method LastNewline(text: string) returns (at: int)
      ensures at == |Lines(text)| - 1
      ensures at == -1 <==> '\n' !in text
    {
      at := |text| - 1;
      while at >= 0 && text[at] != '\n'
        invariant -1 <= at < |text|
        invariant forall k :: at < k < |text| ==> text[k] != '\n'
      {
        at := at - 1;
      }
      SplitUnique(text, text[..at + 1], text[at + 1..]);
      LinesShape(text);
    }

    method WriteChunk(fd: Fd, text: string)
      modifies this
      ensures View() == Write(old(View()), Chunk(fd, text))
    {
      var newline := LastNewline(text);
      LinesShape(text);
      var held := if fd == Out then leftoverOut else leftoverErr;
      var line, left := "", held + text;
      if newline != -1 {
        if newline == |text| - 1 {
          line, left := held + text, "";
        } else {
          line, left := held + text[..newline + 1], text[newline + 1..];
        }
        assert text[..newline + 1] == Lines(text) && text[newline + 1..] == Rest(text);
      }
      if fd == Out {
        leftoverOut := left;
        if newline != -1 { out := out + line; }
      } else {
        leftoverErr := left;
        if newline != -1 { err := err + line; }
      }
    }

    method DumpLeftovers()
      modifies this`out, this`err
      ensures View() == Dump(old(View()))
    {
      if |leftoverOut| != 0 { out := out + leftoverOut; }
      if |leftoverErr| != 0 { err := err + leftoverErr; }
    }
  }
}
