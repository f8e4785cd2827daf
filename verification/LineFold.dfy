/** Folding a step over the lines of a text that arrives in pieces.  What is left of a text
    after its last line feed waits for the next piece, so the pieces do not matter; the
    step is a parameter. */
module LineFold {
  import opened Text

  /** `line.rstrip("\r")`. */
  function StripReturns(line: string): (r: string)
    ensures r <= line && (r == "" || r[|r| - 1] != '\r')
  {
    if line != "" && line[|line| - 1] == '\r' then StripReturns(line[..|line| - 1]) else line
  }

  /** Takes every complete line off the front of the text; what is left is unfinished. */
  function Drain<A>(step: (A, string) -> A, a: A, text: string): (A, string)
    decreases |text|
  {
    if '\n' in text then
      var (line, rest) := Partition(text, '\n');
      Drain(step, step(a, StripReturns(line)), rest)
    else (a, text)
  }

  function FoldLines<A>(step: (A, string) -> A, a: A, lines: seq<string>): A
    decreases |lines|
  {
    if lines == [] then a else FoldLines(step, step(a, lines[0]), lines[1..])
  }

  lemma {:induction false} DrainLeavesNoBreak<A>(step: (A, string) -> A, a: A, text: string)
    ensures '\n' !in Drain(step, a, text).1
    decreases |text|
  {
    if '\n' in text {
      var (line, rest) := Partition(text, '\n');
      DrainLeavesNoBreak(step, step(a, StripReturns(line)), rest);
    }
  }

  /** Draining part of a text, then the rest after what was left over, is draining it all. */
  lemma {:induction false} DrainInTwo<A>(step: (A, string) -> A, a: A, first: string, second: string)
    ensures
      var (b, left) := Drain(step, a, first);
      Drain(step, a, first + second) == Drain(step, b, left + second)
    decreases |first|
  {
    if '\n' in first {
      var (line, rest) := Partition(first, '\n');
      assert first + second == line + ['\n'] + (rest + second);
      PartitionAt(line, '\n', rest + second);
      DrainInTwo(step, step(a, StripReturns(line)), rest, second);
    }
  }

  lemma {:induction false} FoldInTwo<A>(step: (A, string) -> A, a: A, first: seq<string>, second: seq<string>)
    ensures FoldLines(step, a, first + second) == FoldLines(step, FoldLines(step, a, first), second)
    decreases |first|
  {
    if first == [] {
      assert first + second == second;
    } else {
      assert (first + second)[1..] == first[1..] + second;
      FoldInTwo(step, step(a, first[0]), first[1..], second);
    }
  }

  /** The raw lines that a step heeds, without their trailing returns. */
  function Meant(raw: seq<string>, skip: string -> bool): seq<string> {
    if raw == [] then []
    else if skip(StripReturns(raw[0])) then Meant(raw[1..], skip)
    else [StripReturns(raw[0])] + Meant(raw[1..], skip)
  }

  /** Line by line: one that is skipped leaves nothing, another its text without the returns. */
  lemma {:induction false} MeantOneByOne(before: seq<string>, line: string, after: seq<string>, skip: string -> bool)
    ensures Meant(before + [line] + after, skip) ==
              Meant(before, skip) + (if skip(StripReturns(line)) then [] else [StripReturns(line)]) + Meant(after, skip)
    decreases |before|
  {
    var raw := before + [line] + after;
    if before == [] {
      assert raw[0] == line && raw[1..] == after;
    } else {
      assert raw[0] == before[0] && raw[1..] == before[1..] + [line] + after;
      MeantOneByOne(before[1..], line, after, skip);
    }
  }

  lemma {:induction false} DrainTerminated<A(!new)>(
      step: (A, string) -> A, a: A, raw: seq<string>, skip: string -> bool)
    requires forall line <- raw :: '\n' !in line
    requires forall b: A, line: string :: skip(line) ==> step(b, line) == b
    ensures Drain(step, a, Terminated(raw)) == (FoldLines(step, a, Meant(raw, skip)), "")
    decreases |raw|
  {
    if raw != [] {
      assert Terminated(raw) == raw[0] + ['\n'] + Terminated(raw[1..]);
      PartitionAt(raw[0], '\n', Terminated(raw[1..]));
      var line := StripReturns(raw[0]);
      DrainTerminated(step, step(a, line), raw[1..], skip);
      var rest := Meant(raw[1..], skip);
      assert ([line] + rest)[1..] == rest;
    }
  }
}
