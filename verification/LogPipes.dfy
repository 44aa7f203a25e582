/** Line reassembly of a child process's two output streams (packages/backend/src/e2e/process.ts). */
module LogPipes {

  datatype Stream = Stdout | Stderr

  datatype Line = Line(stream: Stream, text: string)

  datatype Chunk = Chunk(stream: Stream, text: string)

  // ---- splitting on newline ---------------------------------------------------------------------------

  predicate OneLine(s: string) {
    '\n' !in s
  }

  predicate AllOneLine(parts: seq<string>) {
    forall i :: 0 <= i < |parts| ==> OneLine(parts[i])
  }

  /** One character put in front of the first part. */
  function Prefixed(c: char, parts: seq<string>): seq<string>
    requires parts != []
  {
    [[c] + parts[0]] + parts[1..]
  }

  /** text.split('\n') */
  function Split(s: string): (parts: seq<string>)
    ensures parts != []
  {
    if s == "" then [""]
    else
      var rest := Split(s[1..]);
      if s[0] == '\n' then [""] + rest else Prefixed(s[0], rest)
  }

  lemma {:induction false} SplitGivesLines(s: string)
    ensures AllOneLine(Split(s))
  {
    if s != "" {
      SplitGivesLines(s[1..]);
    }
  }

  function Join(parts: seq<string>): string {
    if parts == [] then "" else if |parts| == 1 then parts[0] else parts[0] + "\n" + Join(parts[1..])
  }

  /** Every line with the newline that ends it. */
  function Unlines(lines: seq<string>): string {
    if lines == [] then "" else lines[0] + "\n" + Unlines(lines[1..])
  }

  lemma {:induction false} JoinOfSplit(s: string)
    ensures Join(Split(s)) == s
  {
    if s != "" {
      JoinOfSplit(s[1..]);
      var rest := Split(s[1..]);
      assert s == [s[0]] + s[1..];
      if s[0] == '\n' {
        assert Split(s)[1..] == rest;
      } else {
        assert Split(s)[1..] == rest[1..];
      }
    }
  }

  lemma JoinOfPrefixed(c: char, parts: seq<string>)
    requires parts != []
    ensures Join(Prefixed(c, parts)) == [c] + Join(parts)
  {
  }

  /** Split is the only way to cut a text into newline-free parts that join to it. */
  lemma {:induction false} SplitOfJoin(parts: seq<string>)
    requires parts != [] && AllOneLine(parts)
    ensures Split(Join(parts)) == parts
    decreases |parts|, |parts[0]|
  {
    var first := parts[0];
    if first == "" {
      if |parts| > 1 {
        SplitOfJoin(parts[1..]);
        var s := Join(parts);
        assert s == "\n" + Join(parts[1..]);
        assert s[1..] == Join(parts[1..]);
        assert Split(s) == [""] + parts[1..];
      }
    } else {
      var less := [first[1..]] + parts[1..];
      assert OneLine(first);
      SplitOfJoin(less);
      JoinOfPrefixed(first[0], less);
      assert [first[0]] + first[1..] == first && less[1..] == parts[1..];
      assert Prefixed(first[0], less) == parts;
      assert ([first[0]] + Join(less))[1..] == Join(less);
      assert first[0] in first;
    }
  }

  function Init<T>(s: seq<T>): seq<T>
    requires s != []
  {
    s[..|s| - 1]
  }

  function Last<T>(s: seq<T>): T
    requires s != []
  {
    s[|s| - 1]
  }

  /** The parts of a text that goes on with b after being split so far: only the last part is unfinished. */
  function Continued(parts: seq<string>, b: string): seq<string>
    requires parts != []
  {
    Init(parts) + Split(Last(parts) + b)
  }

  function Cons(c: char, rest: seq<string>): seq<string>
    requires rest != []
  {
    if c == '\n' then [""] + rest else Prefixed(c, rest)
  }

  lemma SplitCons(s: string, tail: string)
    requires s != "" && s[1..] == tail
    ensures Split(s) == Cons(s[0], Split(tail))
  {
  }

  lemma ConsConcat(c: char, x: seq<string>, y: seq<string>)
    requires x != []
    ensures Cons(c, x) + y == Cons(c, x + y)
  {
  }

  lemma ConsOfLonger(c: char, rest: seq<string>)
    requires |rest| > 1
    ensures Init(Cons(c, rest)) == Cons(c, Init(rest)) && Last(Cons(c, rest)) == Last(rest)
  {
  }

  lemma ContinuedCons(c: char, rest: seq<string>, b: string)
    requires rest != []
    ensures Continued(rest, b) != [] && Continued(Cons(c, rest), b) == Cons(c, Continued(rest, b))
  {
    var tail := Last(rest) + b;
    if |rest| > 1 {
      ConsOfLonger(c, rest);
      ConsConcat(c, Init(rest), Split(tail));
    } else if c == '\n' {
      assert Init([""] + rest) == [""] && Last([""] + rest) == Last(rest);
      assert Init(rest) + Split(tail) == Split(tail);
    } else {
      assert Cons(c, rest) == [[c] + rest[0]];
      SplitCons([c] + rest[0] + b, tail);
      assert Init(rest) + Split(tail) == Split(tail);
    }
  }

  lemma {:induction false} SplitOfConcat(a: string, b: string)
    ensures Split(a + b) == Continued(Split(a), b)
  {
    if a == "" {
      assert a + b == b && Init([""]) == [];
      assert Last([""]) + b == b;
    } else {
      SplitOfConcat(a[1..], b);
      SplitCons(a, a[1..]);
      SplitCons(a + b, a[1..] + b);
      ContinuedCons(a[0], Split(a[1..]), b);
    }
  }

  /** What a reader does with the next chunk: keep the finished parts, split the remainder with it. */
  lemma RemainderContinues(lines: seq<string>, remainder: string, text: string, chunk: string)
    requires lines + [remainder] == Split(text)
    ensures lines + Split(remainder + chunk) == Split(text + chunk)
  {
    SplitOfConcat(text, chunk);
    assert Init(lines + [remainder]) == lines && Last(lines + [remainder]) == remainder;
  }

  // ---- the pipes --------------------------------------------------------------------------------------

  datatype Pipes = Pipes(stdout: string, stderr: string, emitted: seq<Line>)

  const ATTACHED: Pipes := Pipes("", "", [])

  function Tagged(stream: Stream, texts: seq<string>): (lines: seq<Line>)
    ensures |lines| == |texts|
    ensures forall i :: 0 <= i < |texts| ==> lines[i] == Line(stream, texts[i])
  {
    seq(|texts|, i requires 0 <= i < |texts| => Line(stream, texts[i]))
  }

  function Remainder(p: Pipes, stream: Stream): string {
    if stream == Stdout then p.stdout else p.stderr
  }

  function Fed(p: Pipes, c: Chunk): Pipes {
    var parts := Split(Remainder(p, c.stream) + c.text);
    var emitted := p.emitted + Tagged(c.stream, Init(parts));
    if c.stream == Stdout then Pipes(Last(parts), p.stderr, emitted) else Pipes(p.stdout, Last(parts), emitted)
  }

  function Unfinished(stream: Stream, remainder: string): seq<Line> {
    if remainder == "" then [] else [Line(stream, remainder)]
  }

  function Flushed(p: Pipes): Pipes {
    p.(emitted := p.emitted + Unfinished(Stdout, p.stdout) + Unfinished(Stderr, p.stderr))
  }

  class ProcessLogPipes {
    var stdoutRemainder: string
    var stderrRemainder: string
    /** What appendLine has been called with. */
    var emitted: seq<Line>

    ghost function View(): Pipes
      reads this
    {
      Pipes(stdoutRemainder, stderrRemainder, emitted)
    }

    constructor ()
      ensures View() == ATTACHED
    {
      stdoutRemainder, stderrRemainder, emitted := "", "", [];
    }

    method AppendLines(stream: Stream, lines: seq<string>)
      modifies this`emitted
      ensures emitted == old(emitted) + Tagged(stream, lines)
    {
      for i := 0 to |lines|
        invariant emitted == old(emitted) + Tagged(stream, lines)[..i]
      {
        emitted := emitted + [Line(stream, lines[i])];
      }
    }

    method OnStdout(chunk: string)
      modifies this
      ensures View() == Fed(old(View()), Chunk(Stdout, chunk))
    {
      var lines := Split(stdoutRemainder + chunk);
      stdoutRemainder := Last(lines);
      AppendLines(Stdout, Init(lines));
    }

    method OnStderr(chunk: string)
      modifies this
      ensures View() == Fed(old(View()), Chunk(Stderr, chunk))
    {
      var lines := Split(stderrRemainder + chunk);
      stderrRemainder := Last(lines);
      AppendLines(Stderr, Init(lines));
    }

    method Flush()
      modifies this`emitted
      ensures View() == Flushed(old(View()))
    {
      if stdoutRemainder != "" { emitted := emitted + [Line(Stdout, stdoutRemainder)]; }
      if stderrRemainder != "" { emitted := emitted + [Line(Stderr, stderrRemainder)]; }
    }
  }

  // ---- whole runs -------------------------------------------------------------------------------------

  function FedAll(p: Pipes, chunks: seq<Chunk>): Pipes
    decreases |chunks|
  {
    if chunks == [] then p else FedAll(Fed(p, chunks[0]), chunks[1..])
  }

  /** What one stream wrote, however it was cut. */
  function TextOf(stream: Stream, chunks: seq<Chunk>): string {
    if chunks == [] then ""
    else (if chunks[0].stream == stream then chunks[0].text else "") + TextOf(stream, chunks[1..])
  }

  function LinesOf(stream: Stream, lines: seq<Line>): seq<string> {
    if lines == [] then []
    else (if lines[0].stream == stream then [lines[0].text] else []) + LinesOf(stream, lines[1..])
  }

  lemma Assoc<T>(a: seq<T>, b: seq<T>, c: seq<T>)
    ensures (a + b) + c == a + (b + c)
  {
  }

  lemma {:induction false} LinesOfConcat(stream: Stream, a: seq<Line>, b: seq<Line>)
    ensures LinesOf(stream, a + b) == LinesOf(stream, a) + LinesOf(stream, b)
  {
    if a == [] {
      assert a + b == b;
    } else {
      LinesOfConcat(stream, a[1..], b);
      assert (a + b)[1..] == a[1..] + b && (a + b)[0] == a[0];
      var own := if a[0].stream == stream then [a[0].text] else [];
      Assoc(own, LinesOf(stream, a[1..]), LinesOf(stream, b));
    }
  }

  lemma {:induction false} LinesOfTagged(stream: Stream, other: Stream, texts: seq<string>)
    ensures LinesOf(stream, Tagged(other, texts)) == if stream == other then texts else []
  {
    if texts != [] {
      LinesOfTagged(stream, other, texts[1..]);
      assert Tagged(other, texts)[1..] == Tagged(other, texts[1..]);
    }
  }

  /** A stream's lines so far and its remainder are exactly its text, split. */
  predicate Tracks(p: Pipes, stream: Stream, text: string) {
    LinesOf(stream, p.emitted) + [Remainder(p, stream)] == Split(text)
  }

  lemma InitLast(lines: seq<string>, parts: seq<string>)
    requires parts != []
    ensures (lines + Init(parts)) + [Last(parts)] == lines + parts
  {
  }

  lemma FedLines(p: Pipes, c: Chunk, stream: Stream)
    ensures var parts := Split(Remainder(p, c.stream) + c.text);
            LinesOf(stream, Fed(p, c).emitted) ==
            LinesOf(stream, p.emitted) + if c.stream == stream then Init(parts) else []
  {
    var parts := Split(Remainder(p, c.stream) + c.text);
    LinesOfConcat(stream, p.emitted, Tagged(c.stream, Init(parts)));
    LinesOfTagged(stream, c.stream, Init(parts));
  }

  lemma FedTracks(p: Pipes, c: Chunk, stream: Stream, text: string)
    requires Tracks(p, stream, text)
    ensures Tracks(Fed(p, c), stream, text + (if c.stream == stream then c.text else ""))
  {
    var lines := LinesOf(stream, p.emitted);
    FedLines(p, c, stream);
    if c.stream == stream {
      RemainderContinues(lines, Remainder(p, stream), text, c.text);
      InitLast(lines, Split(Remainder(p, stream) + c.text));
    } else {
      assert text + "" == text && lines + [] == lines;
    }
  }

  lemma {:induction false} RunTracks(p: Pipes, chunks: seq<Chunk>, stream: Stream, text: string)
    requires Tracks(p, stream, text)
    ensures Tracks(FedAll(p, chunks), stream, text + TextOf(stream, chunks))
    decreases |chunks|
  {
    if chunks == [] {
      assert text + "" == text;
    } else {
      var head := if chunks[0].stream == stream then chunks[0].text else "";
      FedTracks(p, chunks[0], stream, text);
      RunTracks(Fed(p, chunks[0]), chunks[1..], stream, text + head);
      Assoc(text, head, TextOf(stream, chunks[1..]));
    }
  }

  /** A text's lines: its split, without an empty last part. */
  function LinesIn(text: string): seq<string> {
    var parts := Split(text);
    if Last(parts) == "" then Init(parts) else parts
  }

  lemma UnfinishedLines(stream: Stream, other: Stream, remainder: string)
    ensures LinesOf(stream, Unfinished(other, remainder))
         == if stream == other && remainder != "" then [remainder] else []
  {
  }

  lemma FlushedLines(p: Pipes, stream: Stream)
    ensures LinesOf(stream, Flushed(p).emitted)
         == LinesOf(stream, p.emitted) + if Remainder(p, stream) == "" then [] else [Remainder(p, stream)]
  {
    var lines, out, err := LinesOf(stream, p.emitted), Unfinished(Stdout, p.stdout), Unfinished(Stderr, p.stderr);
    LinesOfConcat(stream, p.emitted + out, err);
    LinesOfConcat(stream, p.emitted, out);
    UnfinishedLines(stream, Stdout, p.stdout);
    UnfinishedLines(stream, Stderr, p.stderr);
    if stream == Stdout {
      assert (lines + LinesOf(stream, out)) + [] == lines + LinesOf(stream, out);
    } else {
      assert lines + [] == lines;
    }
  }

  /** Main result. However the two streams are cut into chunks and interleaved, the lines emitted for a
      stream, flushed once at the end, are the lines of its whole text. */
  lemma RunReassembles(chunks: seq<Chunk>, stream: Stream)
    ensures LinesOf(stream, Flushed(FedAll(ATTACHED, chunks)).emitted) == LinesIn(TextOf(stream, chunks))
  {
    var end, text := FedAll(ATTACHED, chunks), TextOf(stream, chunks);
    RunTracks(ATTACHED, chunks, stream, "");
    assert "" + text == text;
    FlushedLines(end, stream);
    assert Init(Split(text)) == LinesOf(stream, end.emitted) && Last(Split(text)) == Remainder(end, stream);
  }

  lemma {:induction false} UnlinesJoin(parts: seq<string>)
    requires parts != []
    ensures Unlines(parts) == Join(parts) + "\n"
    ensures Last(parts) == "" ==> Unlines(Init(parts)) == Join(parts)
  {
    if |parts| > 1 {
      UnlinesJoin(parts[1..]);
      assert Init(parts)[1..] == Init(parts[1..]);
    }
  }

  predicate Finished(text: string) {
    text == "" || Last(text) == '\n'
  }

  lemma {:induction false} FinishedIffLastEmpty(text: string)
    ensures Finished(text) <==> Last(Split(text)) == ""
  {
    if text != "" {
      FinishedIffLastEmpty(text[1..]);
    }
  }

  /** Main result. The emitted lines, each with its newline, are the stream's text again; one newline is
      added when the text does not end in one. */
  lemma NothingIsLost(chunks: seq<Chunk>, stream: Stream)
    ensures var text := TextOf(stream, chunks);
            Unlines(LinesOf(stream, Flushed(FedAll(ATTACHED, chunks)).emitted)) ==
            if Finished(text) then text else text + "\n"
  {
    var text := TextOf(stream, chunks);
    RunReassembles(chunks, stream);
    JoinOfSplit(text);
    UnlinesJoin(Split(text));
    FinishedIffLastEmpty(text);
  }

  /** Flushing does not clear the remainders, so a second flush emits them again: it is harmless exactly
      when both texts are finished. */
  lemma SecondFlushHarmlessIff(chunks: seq<Chunk>)
    ensures var end := Flushed(FedAll(ATTACHED, chunks));
            Flushed(end) == end <==> Finished(TextOf(Stdout, chunks)) && Finished(TextOf(Stderr, chunks))
  {
    var end := FedAll(ATTACHED, chunks);
    forall stream: Stream ensures Finished(TextOf(stream, chunks)) <==> Remainder(end, stream) == "" {
      RunTracks(ATTACHED, chunks, stream, "");
      assert "" + TextOf(stream, chunks) == TextOf(stream, chunks);
      assert Last(Split(TextOf(stream, chunks))) == Remainder(end, stream);
      FinishedIffLastEmpty(TextOf(stream, chunks));
    }
    assert Remainder(end, Stdout) == end.stdout && Remainder(end, Stderr) == end.stderr;
    var f := Flushed(end);
    var again := (if end.stdout != "" then 1 else 0) + (if end.stderr != "" then 1 else 0);
    assert |Flushed(f).emitted| == |f.emitted| + again;
    if end.stdout == "" && end.stderr == "" {
      assert Flushed(f).emitted == f.emitted;
    }
  }

  // ---- when and in which order ----------------------------------------------------------------------

  /** The pipes hold back exactly the unfinished end of each text. */
  lemma HoldsBackTheUnfinished(chunks: seq<Chunk>, stream: Stream)
    ensures Remainder(FedAll(ATTACHED, chunks), stream) == Last(Split(TextOf(stream, chunks)))
  {
    RunTracks(ATTACHED, chunks, stream, "");
    assert "" + TextOf(stream, chunks) == TextOf(stream, chunks);
  }

  lemma {:induction false} FedAllSnoc(p: Pipes, chunks: seq<Chunk>, c: Chunk)
    ensures FedAll(p, chunks + [c]) == Fed(FedAll(p, chunks), c)
    decreases |chunks|
  {
    if chunks == [] {
      assert [] + [c] == [c] && [c][1..] == [];
      assert FedAll(p, [c]) == FedAll(Fed(p, c), []);
    } else {
      assert (chunks + [c])[1..] == chunks[1..] + [c];
      FedAllSnoc(Fed(p, chunks[0]), chunks[1..], c);
    }
  }

  /** The lines that more text finishes. */
  function NewlyFinished(text: string, more: string): seq<string> {
    var before, after := Init(Split(text)), Init(Split(text + more));
    if |before| <= |after| then after[|before|..] else []
  }

  /** Main result. A chunk emits at once, behind everything emitted before, the lines its own stream's text has gained
      by it, in their order, and no other. */
  lemma ChunkEmitsWhatItFinishes(chunks: seq<Chunk>, c: Chunk)
    ensures FedAll(ATTACHED, chunks + [c]).emitted
         == FedAll(ATTACHED, chunks).emitted + Tagged(c.stream, NewlyFinished(TextOf(c.stream, chunks), c.text))
  {
    var text := TextOf(c.stream, chunks);
    FedAllSnoc(ATTACHED, chunks, c);
    HoldsBackTheUnfinished(chunks, c.stream);
    SplitOfConcat(text, c.text);
    var parts := Split(Last(Split(text)) + c.text);
    assert Split(text + c.text) == Init(Split(text)) + parts;
    assert NewlyFinished(text, c.text) == Init(parts);
  }

  /** What flushing a text adds: its unfinished end, if any. */
  function Rest(stream: Stream, text: string): seq<Line> {
    if Finished(text) then [] else [Line(stream, Last(Split(text)))]
  }

  /** Main result. Flushing emits the unfinished end of stdout, then that of stderr. */
  lemma FlushEmitsStdoutFirst(chunks: seq<Chunk>)
    ensures Flushed(FedAll(ATTACHED, chunks)).emitted
         == FedAll(ATTACHED, chunks).emitted
            + (Rest(Stdout, TextOf(Stdout, chunks)) + Rest(Stderr, TextOf(Stderr, chunks)))
  {
    var end := FedAll(ATTACHED, chunks);
    HoldsBackTheUnfinished(chunks, Stdout);
    HoldsBackTheUnfinished(chunks, Stderr);
    FinishedIffLastEmpty(TextOf(Stdout, chunks));
    FinishedIffLastEmpty(TextOf(Stderr, chunks));
    assert Remainder(end, Stdout) == end.stdout && Remainder(end, Stderr) == end.stderr;
    Assoc(end.emitted, Unfinished(Stdout, end.stdout), Unfinished(Stderr, end.stderr));
  }
}
