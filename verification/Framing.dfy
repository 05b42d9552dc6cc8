/**
 * Newline-delimited JSON over a stream (services/api/src/lib/agent-client.ts,
 * services/server-agent/src/server.ts): the reader keeps the unfinished line in
 * a buffer and may be handed the stream in any pieces.
 */
module Framing {
  import opened Common
  import opened Text

  // ----------------------------------------------------------- what a stream says

  /** The lines that end in a line feed. */
  function Lines(s: string): (lines: seq<string>) {
    var i := Find(s, '\n');
    if i == |s| then [] else [s[..i]] + Lines(s[i + 1..])
  }

  /** What follows the last line feed. */
  function Rest(s: string): (rest: string)
    ensures '\n' !in rest
  {
    var i := Find(s, '\n');
    if i == |s| then s else Rest(s[i + 1..])
  }

  function NonBlank(lines: seq<string>): seq<string> {
    if lines == [] then [] else (if Blank(lines[0]) then [] else [lines[0]]) + NonBlank(lines[1..])
  }

  lemma {:induction false} NonBlankConcat(a: seq<string>, b: seq<string>)
    ensures NonBlank(a + b) == NonBlank(a) + NonBlank(b)
  {
    if a == [] {
      assert a + b == b;
    } else {
      assert (a + b)[1..] == a[1..] + b;
      NonBlankConcat(a[1..], b);
    }
  }

  /** One complete line at the front. */
  lemma LinesCons(line: string, s: string)
    requires '\n' !in line
    ensures Lines(line + ['\n'] + s) == [line] + Lines(s) && Rest(line + ['\n'] + s) == Rest(s)
  {
    var all := line + ['\n'] + s;
    FindInConcat(line, s, '\n');
    assert all[..|line|] == line && all[|line| + 1..] == s;
  }

  lemma Unfinished(s: string)
    requires Find(s, '\n') == |s|
    ensures Lines(s) == [] && Rest(s) == s
  {
  }

  /** Reading a stream in two parts, carrying the unfinished line over. */
  lemma {:induction false} LinesConcat(a: string, b: string)
    ensures Lines(a + b) == Lines(a) + Lines(Rest(a) + b)
    ensures Rest(a + b) == Rest(Rest(a) + b)
    decreases |a|
  {
    hide Lines, Rest, Find;
    var i := Find(a, '\n');
    if i == |a| {
      Unfinished(a);
    } else {
      CutAt(a, i);
      var (line, tail) := (a[..i], a[i + 1..]);
      assert a + b == line + ['\n'] + (tail + b);
      LinesCons(line, tail);
      LinesCons(line, tail + b);
      LinesConcat(tail, b);
    }
  }

  /** Any lines, each ended by a line feed, and an unfinished one are read back as they are. */
  lemma {:induction false} StreamReads(lines: seq<string>, rest: string)
    requires (forall line <- lines :: '\n' !in line) && '\n' !in rest
    ensures Lines(Written(lines) + rest) == lines && Rest(Written(lines) + rest) == rest
  {
    if lines == [] {
      assert "" + rest == rest;
      Unfinished(rest);
    } else {
      hide Lines, Rest;
      var later := Written(lines[1..]);
      assert lines[0] in lines;
      assert Written(lines) + rest == lines[0] + ['\n'] + (later + rest);
      LinesCons(lines[0], later + rest);
      StreamReads(lines[1..], rest);
    }
  }

  // ------------------------------------------------------------------- the reader

  class Reader {
    var buffer: string

    constructor ()
      ensures buffer == ""
    {
      buffer := "";
    }

    /** One `data` event: the complete, non-blank lines it finishes, in order. */
    method OnData(chunk: string) returns (lines: seq<string>)
      modifies this
      ensures lines == NonBlank(Lines(old(buffer) + chunk))
      ensures buffer == Rest(old(buffer) + chunk)
    {
      hide Blank, NonBlank, Lines, Rest;
      var text := buffer + chunk;
      ghost var all := text;
      lines := [];
      var newline := Find(text, '\n');
      while newline < |text|
        invariant newline == Find(text, '\n') <= |text|
        invariant NonBlank(Lines(all)) == lines + NonBlank(Lines(text))
        invariant Rest(all) == Rest(text)
        decreases |text|
      {
        var line := text[..newline];
        ReadLine(text, newline);
        text := text[newline + 1..];
        if !Blank(line) {
          lines := lines + [line];
        }
        newline := Find(text, '\n');
      }
      Drained(text);
      buffer := text;
    }
  }

  /** What one turn of the loop takes from the buffer. */
  lemma ReadLine(text: string, newline: nat)
    requires newline == Find(text, '\n') < |text|
    ensures var (line, tail) := (text[..newline], text[newline + 1..]);
      && NonBlank(Lines(text)) == (if Blank(line) then [] else [line]) + NonBlank(Lines(tail))
      && Rest(text) == Rest(tail)
  {
    hide Blank, Lines, Rest, Find, NonBlank;
    CutAt(text, newline);
    LinesCons(text[..newline], text[newline + 1..]);
    NonBlankCons(text[..newline], Lines(text[newline + 1..]));
  }

  lemma CutAt(text: string, newline: nat)
    requires newline == Find(text, '\n') < |text|
    ensures text == text[..newline] + ['\n'] + text[newline + 1..] && '\n' !in text[..newline]
  {
    hide *;
    assert text[newline] == '\n';
  }

  lemma NonBlankCons(line: string, lines: seq<string>)
    ensures NonBlank([line] + lines) == (if Blank(line) then [] else [line]) + NonBlank(lines)
  {
    hide Blank;
    assert ([line] + lines)[1..] == lines;
  }

  lemma Drained(text: string)
    requires Find(text, '\n') == |text|
    ensures NonBlank(Lines(text)) == [] && Rest(text) == text
  {
  }

  /** A reader handed several chunks: everything it emits, and what it still holds. */
  function Fed(buffer: string, chunks: seq<string>): (seq<string>, string)
    decreases |chunks|
  {
    if chunks == [] then ([], buffer)
    else
      var (lines, rest) := Fed(Rest(buffer + chunks[0]), chunks[1..]);
      (NonBlank(Lines(buffer + chunks[0])) + lines, rest)
  }

  method FeedAll(reader: Reader, chunks: seq<string>) returns (lines: seq<string>)
    modifies reader
    decreases |chunks|
    ensures (lines, reader.buffer) == Fed(old(reader.buffer), chunks)
  {
    hide NonBlank, Lines, Rest;
    if chunks == [] {
      return [];
    }
    lines := reader.OnData(chunks[0]);
    var more := FeedAll(reader, chunks[1..]);
    lines := lines + more;
  }

  function Concat(chunks: seq<string>): string {
    if chunks == [] then "" else chunks[0] + Concat(chunks[1..])
  }

  /**
   * Chunk boundaries do not matter: every way of cutting a stream yields the
   * non-blank complete lines of the whole, in order, and the same leftover.
   */
  lemma {:induction false} ChunkingIrrelevant(buffer: string, chunks: seq<string>)
    requires '\n' !in buffer
    ensures Fed(buffer, chunks) == (NonBlank(Lines(buffer + Concat(chunks))), Rest(buffer + Concat(chunks)))
    decreases |chunks|
  {
    hide NonBlank;
    if chunks == [] {
      assert buffer + "" == buffer;
      assert Find(buffer, '\n') == |buffer|;
      NothingLeft();
    } else {
      hide Lines, Rest;
      var (first, later) := (buffer + chunks[0], Concat(chunks[1..]));
      ChunkingIrrelevant(Rest(first), chunks[1..]);
      LinesConcat(first, later);
      NonBlankConcat(Lines(first), Lines(Rest(first) + later));
      assert first + later == buffer + Concat(chunks);
    }
  }

  lemma NothingLeft()
    ensures NonBlank([]) == []
  {
  }

  // ------------------------------------------------------------------- the frames

  /** The writer: each frame's text and a line feed. */
  function Written(texts: seq<string>): string {
    if texts == [] then "" else texts[0] + "\n" + Written(texts[1..])
  }

  predicate Frameable(text: string) {
    '\n' !in text && !Blank(text)
  }

  lemma {:induction false} WrittenLines(texts: seq<string>)
    requires forall t <- texts :: Frameable(t)
    ensures NonBlank(Lines(Written(texts))) == texts && Rest(Written(texts)) == ""
  {
    if texts == [] {
    } else {
      hide Blank, Lines, Rest;
      var (text, later) := (texts[0], Written(texts[1..]));
      assert text in texts && Frameable(text);
      assert text + "\n" + later == text + ['\n'] + later;
      LinesCons(text, later);
      WrittenLines(texts[1..]);
      assert ([text] + Lines(later))[1..] == Lines(later);
    }
  }

  function Printed<F>(show: F -> string, frames: seq<F>): (texts: seq<string>)
    ensures |texts| == |frames|
    ensures forall i :: 0 <= i < |frames| ==> texts[i] == show(frames[i])
  {
    if frames == [] then [] else [show(frames[0])] + Printed(show, frames[1..])
  }

  /** `onFrame(JSON.parse(line))`, a line that does not parse being dropped. */
  function Delivered<F>(parse: string -> Option<F>, lines: seq<string>): seq<F> {
    if lines == [] then []
    else
      (match parse(lines[0]) case Some(frame) => [frame] case None => []) + Delivered(parse, lines[1..])
  }

  /** A line that does not parse is dropped by itself: the frames before and after it are delivered. */
  lemma {:induction false} BadLineDropped<F>(
    parse: string -> Option<F>, before: seq<string>, bad: string, after: seq<string>)
    requires parse(bad).None?
    ensures Delivered(parse, before + [bad] + after) == Delivered(parse, before) + Delivered(parse, after)
  {
    if before == [] {
      assert (before + [bad] + after)[1..] == after && Delivered(parse, after) == [] + Delivered(parse, after);
    } else {
      assert (before + [bad] + after)[1..] == before[1..] + [bad] + after;
      BadLineDropped(parse, before[1..], bad, after);
    }
  }

  lemma {:induction false} DeliveredPrinted<F(!new)>(show: F -> string, parse: string -> Option<F>, frames: seq<F>)
    requires forall f <- frames :: parse(show(f)) == Some(f)
    ensures Delivered(parse, Printed(show, frames)) == frames
  {
    if frames == [] {
    } else {
      DeliveredPrinted(show, parse, frames[1..]);
      assert Printed(show, frames)[1..] == Printed(show, frames[1..]);
      assert parse(show(frames[0])) == Some(frames[0]);
    }
  }

  /**
   * Frames survive the wire: whatever pieces the written stream arrives in, the
   * reader delivers exactly the frames that were written, in order, given a
   * JSON printer that writes no line feed and a parser that undoes it.
   */
  lemma FramesRecovered<F(!new)>(show: F -> string, parse: string -> Option<F>, frames: seq<F>, chunks: seq<string>)
    requires forall f <- frames :: parse(show(f)) == Some(f) && Frameable(show(f))
    requires Concat(chunks) == Written(Printed(show, frames))
    ensures Delivered(parse, Fed("", chunks).0) == frames && Fed("", chunks).1 == ""
  {
    hide NonBlank, Lines, Rest, Blank, Written;
    var texts := Printed(show, frames);
    ChunkingIrrelevant("", chunks);
    assert "" + Concat(chunks) == Concat(chunks);
    WrittenLines(texts);
    DeliveredPrinted(show, parse, frames);
  }
}
