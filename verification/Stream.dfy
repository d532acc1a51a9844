/** The reader loop of `stream` in packages/sdk/src/transport.ts: server-sent events, line by line. */
module Stream {
  import opened Text

  /** An event's name and the text of its data, before it is parsed as JSON. */
  datatype Event = Event(name: string, data: string)

  /** What is known between lines. */
  datatype Read = Read(events: seq<Event>, current: string)

  function ReadLine(r: Read, raw: string): Read {
    var line := TrimEnd(raw);
    if line == "" then r.(current := "")
    else if "event: " <= line then r.(current := Trim(line[7..]))
    else if !("data: " <= line) then r
    else r.(events := r.events + [Event(if r.current == "" then "message" else r.current, line[6..])])
  }

  function ReadLines(r: Read, lines: seq<string>): Read {
    if lines == [] then r else ReadLine(ReadLines(r, lines[..|lines| - 1]), lines[|lines| - 1])
  }

  /** The complete lines of a text, and what is left after the last line feed. */
  function Complete(text: string): seq<string> { Split(text, '\n')[..|Split(text, '\n')| - 1] }

  function Leftover(text: string): string { Split(text, '\n')[|Split(text, '\n')| - 1] }

  /** The whole decoded text, split once. */
  function WholeRead(text: string): Read { ReadLines(Read([], ""), Complete(text)) }

  /** The loop's variables, and the calls of `onEvent` so far. */
  class Reader {
    var buffer: string
    var currentEvent: string
    var events: seq<Event>

    /** Everything fed so far. */
    ghost var text: string

    ghost predicate Valid()
      reads this
    {
      Read(events, currentEvent) == WholeRead(text) && buffer == Leftover(text)
    }

    constructor ()
      ensures Valid() && text == ""
    {
      buffer, currentEvent, events, text := "", "", [], "";
      new;
      SplitNothing();
    }

    /** One chunk, as the decoder hands it out. */
    method Feed(chunk: string)
      requires Valid()
      modifies this
      ensures Valid() && text == old(text) + chunk
      ensures old(events) <= events
    {
      hide Split, ReadLines;
      ghost var before := text;
      buffer := buffer + chunk;
      var lines := Split(buffer, '\n');
      buffer := lines[|lines| - 1];
      lines := lines[..|lines| - 1];
      ReadNone(Read(events, currentEvent));
      ghost var start := Read(events, currentEvent);
      for i := 0 to |lines|
        modifies this
        invariant Read(events, currentEvent) == ReadLines(start, lines[..i])
        invariant buffer == Leftover(Leftover(before) + chunk) && text == before && start.events <= events
      {
        ReadStep(start, lines, i);
        var line := TrimEnd(lines[i]);
        if line == "" {
          currentEvent := "";
          continue;
        }
        if "event: " <= line {
          currentEvent := Trim(line[7..]);
          continue;
        }
        if !("data: " <= line) { continue; }
        var eventName := if currentEvent == "" then "message" else currentEvent;
        events := events + [Event(eventName, line[6..])];
      }
      assert lines[..|lines|] == lines;
      text := text + chunk;
      SplitOn(before, chunk);
      ReadConcat(Read([], ""), Complete(before), lines);
    }
  }

  lemma SplitNothing()
    ensures Complete("") == [] && Leftover("") == ""
  {
  }

  lemma ReadNone(r: Read)
    ensures ReadLines(r, []) == r
  {
  }

  lemma ReadStep(r: Read, lines: seq<string>, i: nat)
    requires i < |lines|
    ensures ReadLines(r, lines[..i + 1]) == ReadLine(ReadLines(r, lines[..i]), lines[i])
  {
    assert lines[..i + 1][..i] == lines[..i];
  }

  lemma {:induction false} ReadConcat(r: Read, a: seq<string>, b: seq<string>)
    ensures ReadLines(r, a + b) == ReadLines(ReadLines(r, a), b)
  {
    hide ReadLine;
    if b == [] {
      assert a + b == a;
    } else {
      assert (a + b)[..|a + b| - 1] == a + b[..|b| - 1];
      ReadConcat(r, a, b[..|b| - 1]);
    }
  }

  /** Splitting a longer text only goes on from what was left of the shorter one. */
  lemma {:induction false} SplitOn(text: string, chunk: string)
    ensures Complete(text + chunk) == Complete(text) + Complete(Leftover(text) + chunk)
    ensures Leftover(text + chunk) == Leftover(Leftover(text) + chunk)
    decreases |text|
  {
    hide Split;
    var n := IndexOf(text, '\n');
    if n == |text| {
      SplitNone(text);
    } else {
      var head, rest := text[..n], text[n + 1..];
      assert text == head + ['\n'] + rest;
      assert text + chunk == head + ['\n'] + (rest + chunk);
      SplitFirst(head, '\n', rest);
      SplitFirst(head, '\n', rest + chunk);
      SplitOn(rest, chunk);
      SplitMore(text, head, rest);
      SplitMore(text + chunk, head, rest + chunk);
    }
  }

  lemma SplitNone(text: string)
    requires IndexOf(text, '\n') == |text|
    ensures Complete(text) == [] && Leftover(text) == text
  {
  }

  lemma SplitMore(text: string, head: string, rest: string)
    requires Split(text, '\n') == [head] + Split(rest, '\n')
    ensures Complete(text) == [head] + Complete(rest) && Leftover(text) == Leftover(rest)
  {
    hide Split;
  }

  function Joined(chunks: seq<string>): string {
    if chunks == [] then "" else Joined(chunks[..|chunks| - 1]) + chunks[|chunks| - 1]
  }

  /** However the text arrives in chunks, the events are those of the whole text, and so is what is left over. */
  method ReadChunks(chunks: seq<string>) returns (events: seq<Event>, leftover: string)
    ensures events == WholeRead(Joined(chunks)).events && leftover == Leftover(Joined(chunks))
  {
    hide Split, ReadLines;
    var reader := new Reader();
    for i := 0 to |chunks|
      invariant fresh(reader) && reader.Valid() && reader.text == Joined(chunks[..i])
    {
      assert chunks[..i + 1][..i] == chunks[..i];
      reader.Feed(chunks[i]);
    }
    assert chunks[..|chunks|] == chunks;
    events, leftover := reader.events, reader.buffer;
  }

  // ---------------------------------------------------------------------
  // Chunk by chunk, without the class
  // ---------------------------------------------------------------------

  /** What the loop computes for one chunk, from what it holds. */
  function Fed(r: Read, buffer: string, chunk: string): (Read, string) {
    (ReadLines(r, Complete(buffer + chunk)), Leftover(buffer + chunk))
  }

  function FedAll(chunks: seq<string>): (Read, string) {
    if chunks == [] then (Read([], ""), "") else
    var (r, buffer) := FedAll(chunks[..|chunks| - 1]);
    Fed(r, buffer, chunks[|chunks| - 1])
  }

  lemma {:induction false} ChunkIndependent(chunks: seq<string>)
    ensures FedAll(chunks) == (WholeRead(Joined(chunks)), Leftover(Joined(chunks)))
  {
    hide Split, ReadLines;
    if chunks == [] {
      SplitNothing();
      ReadNone(Read([], ""));
    } else {
      var n := |chunks| - 1;
      ChunkIndependent(chunks[..n]);
      SplitOn(Joined(chunks[..n]), chunks[n]);
      ReadConcat(Read([], ""), Complete(Joined(chunks[..n])), Complete(Leftover(Joined(chunks[..n])) + chunks[n]));
    }
  }

  /** Two chunkings of one text can't be told apart. */
  lemma ChunkingIsFree(a: seq<string>, b: seq<string>)
    requires Joined(a) == Joined(b)
    ensures FedAll(a) == FedAll(b)
  {
    ChunkIndependent(a);
    ChunkIndependent(b);
  }

  // ---------------------------------------------------------------------
  // Which events the lines give
  // ---------------------------------------------------------------------

  predicate IsEventLine(raw: string) { "event: " <= TrimEnd(raw) }

  predicate IsDataLine(raw: string) { "data: " <= TrimEnd(raw) }

  function NameOn(raw: string): string
    requires IsEventLine(raw)
  {
    Trim(TrimEnd(raw)[7..])
  }

  /** Line `j` is the last one before `i` that is blank or names an event. */
  predicate IsLast(lines: seq<string>, i: nat, j: nat)
    requires i <= |lines|
  {
    && j < i && (TrimEnd(lines[j]) == "" || IsEventLine(lines[j]))
    && forall h | j < h < i :: TrimEnd(lines[h]) != "" && !IsEventLine(lines[h])
  }

  /** The name of a data line's event: the one given last, if no blank line came since, and `message` without one. */
  ghost predicate Names(lines: seq<string>, i: nat, name: string)
    requires i <= |lines|
  {
    || (exists j: nat :: IsLast(lines, i, j) && IsEventLine(lines[j]) && name == NameOn(lines[j]) && name != "")
    || (name == "message"
        && forall j: nat :: IsLast(lines, i, j) && IsEventLine(lines[j]) ==> NameOn(lines[j]) == "")
  }

  lemma LastOnce(lines: seq<string>, i: nat, j: nat, k: nat)
    requires i <= |lines| && IsLast(lines, i, j) && IsLast(lines, i, k)
    ensures j == k
  {
    hide TrimEnd;
  }

  lemma LastStep(lines: seq<string>, i: nat, j: nat)
    requires i < |lines|
    ensures IsLast(lines, i + 1, j) <==>
            if TrimEnd(lines[i]) == "" || IsEventLine(lines[i]) then j == i else IsLast(lines, i, j)
  {
    hide TrimEnd;
  }

  /** The name that is known before line `n`. */
  lemma {:induction false} NameKnown(lines: seq<string>, n: nat)
    requires n <= |lines|
    ensures var name := ReadLines(Read([], ""), lines[..n]).current;
            Names(lines, n, if name == "" then "message" else name)
  {
    hide TrimEnd, Trim;
    if n > 0 {
      NameKnown(lines, n - 1);
      ReadStep(Read([], ""), lines, n - 1);
      forall j: nat
        ensures IsLast(lines, n, j) <==>
                if TrimEnd(lines[n - 1]) == "" || IsEventLine(lines[n - 1]) then j == n - 1 else IsLast(lines, n - 1, j)
      {
        LastStep(lines, n - 1, j);
      }
    } else {
      assert lines[..0] == [];
    }
  }

  /** Every data line of the text is one event, in order, with the data behind the prefix and the name in force there.
      No other line is an event. */
  lemma {:induction false} EventsExactly(lines: seq<string>, n: nat) returns (at: seq<nat>)
    requires n <= |lines|
    ensures var events := ReadLines(Read([], ""), lines[..n]).events;
            && |at| == |events| && (forall i, j | 0 <= i < j < |at| :: at[i] < at[j])
            && (forall k | 0 <= k < |at| :: at[k] < n) && (forall i: nat :: i in at <==> i < n && IsDataLine(lines[i]))
            && forall k | 0 <= k < |at| ::
                 events[k].data == TrimEnd(lines[at[k]])[6..] && Names(lines, at[k], events[k].name)
  {
    hide TrimEnd, Trim, Names, ReadLines;
    at := [];
    if n == 0 {
      assert lines[..0] == [];
      ReadNone(Read([], ""));
    } else {
      at := EventsExactly(lines, n - 1);
      ReadStep(Read([], ""), lines, n - 1);
      NameKnown(lines, n - 1);
      DataIsNoEvent(lines[n - 1]);
      if IsDataLine(lines[n - 1]) {
        at := at + [n - 1];
      }
    }
  }

  lemma DataIsNoEvent(raw: string)
    ensures IsDataLine(raw) ==> TrimEnd(raw) != "" && !IsEventLine(raw)
  {
    hide TrimEnd;
    if IsDataLine(raw) { assert TrimEnd(raw)[0] == 'd'; }
  }

  /** And no data line has two names. */
  lemma NamedOnce(lines: seq<string>, i: nat, a: string, b: string)
    requires i <= |lines| && Names(lines, i, a) && Names(lines, i, b)
    ensures a == b
  {
    hide TrimEnd, Trim, IsLast;
    forall j: nat, k: nat | IsLast(lines, i, j) && IsLast(lines, i, k)
      ensures j == k
    {
      LastOnce(lines, i, j, k);
    }
  }
}
