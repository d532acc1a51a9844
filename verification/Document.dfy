/** packages/compiler/src/document.ts: fits a selection to a budget and renders it. */
module Document {
  import opened Text
  import opened Sorting
  import opened Model

  datatype Style = Markdown | Plain

  datatype Layout = Layout(style: Style, head: seq<string>, tail: seq<string>)

  datatype Limit = Limit(bytes: nat, chars: Option<nat>)

  /** `CompilerBug` is the error thrown when the count and the bytes disagree. */
  datatype Composed =
    | Composed(content: string, included: seq<Entry>, dropped: seq<Entry>)
    | CompilerBug

  // ---------------------------------------------------------------------
  // Sizes
  // ---------------------------------------------------------------------

  /** What a budget counts: UTF-8 bytes, and UTF-16 units for tools that count characters. */
  datatype Unit = Bytes | Chars

  function CharSize(u: Unit, c: char): nat {
    var n := c as int;
    match u
    case Bytes => if n < 0x80 then 1 else if n < 0x800 then 2 else if n < 0x10000 then 3 else 4
    case Chars => if n < 0x10000 then 1 else 2
  }

  /** The least number of bytes that has room for a character: 7 bits in one byte of UTF-8, and 5n + 1 in n bytes
      (section 3 of RFC 3629). A character takes two units of UTF-16 if 16 bits don't hold it (RFC 2781). */
  lemma CharSizeIsEncoded(c: char)
    ensures var room := [0x80, 0x800, 0x1_0000, 0x20_0000];
            var n := CharSize(Bytes, c);
            1 <= n <= 4 && c as int < room[n - 1] && (n > 1 ==> room[n - 2] <= c as int)
    ensures CharSize(Chars, c) == if c as int < 0x1_0000 then 1 else 2
  {
  }

  function Total<T>(f: T -> nat, s: seq<T>): nat {
    if s == [] then 0 else f(s[0]) + Total(f, s[1..])
  }

  function CharSizer(u: Unit): char -> nat { (c: char) => CharSize(u, c) }

  function StringSize(u: Unit, s: string): nat { Total(CharSizer(u), s) }

  function LineSizer(u: Unit): string -> nat { (line: string) => StringSize(u, line) + 1 }

  /** The size of lines once joined, each counted with its newline. */
  function Measure(u: Unit, lines: seq<string>): nat { Total(LineSizer(u), lines) }

  method MeasureLines(lines: seq<string>) returns (bytes: nat, chars: nat)
    ensures bytes == Measure(Bytes, lines) && chars == Measure(Chars, lines)
  {
    bytes, chars := 0, 0;
    for i := 0 to |lines|
      invariant bytes + Measure(Bytes, lines[i..]) == Measure(Bytes, lines)
      invariant chars + Measure(Chars, lines[i..]) == Measure(Chars, lines)
    {
      assert lines[i..][1..] == lines[i + 1..];
      bytes := bytes + StringSize(Bytes, lines[i]) + 1;
      chars := chars + StringSize(Chars, lines[i]) + 1;
    }
  }

  lemma {:induction false} TotalConcat<T>(f: T -> nat, a: seq<T>, b: seq<T>)
    ensures Total(f, a + b) == Total(f, a) + Total(f, b)
  {
    if a == [] {
      assert a + b == b;
    } else {
      assert (a + b)[1..] == a[1..] + b;
      TotalConcat(f, a[1..], b);
    }
  }

  lemma TotalOne<T>(f: T -> nat, x: T)
    ensures Total(f, [x]) == f(x)
  {
  }

  /** A total doesn't depend on order. */
  lemma {:induction false} TotalPermuted<T>(f: T -> nat, a: seq<T>, b: seq<T>)
    requires multiset(a) == multiset(b)
    ensures Total(f, a) == Total(f, b)
  {
    SameSize(a, b);
    if a != [] {
      SameMembers(a, b);
      assert a[0] in b;
      var j :| 0 <= j < |b| && b[j] == a[0];
      var rest := b[..j] + b[j + 1..];
      assert b == b[..j] + ([b[j]] + b[j + 1..]);
      TotalConcat(f, b[..j], [b[j]] + b[j + 1..]);
      TotalConcat(f, b[..j], b[j + 1..]);
      assert ([b[j]] + b[j + 1..])[1..] == b[j + 1..];
      TailContents(a);
      assert multiset(a[1..]) == multiset(rest);
      TotalPermuted(f, a[1..], rest);
    }
  }

  /** Lines joined with `\n`, and a final one, weigh what was measured. */
  lemma {:induction false} ContentSize(u: Unit, lines: seq<string>)
    requires lines != []
    ensures StringSize(u, Content(lines)) == Measure(u, lines)
  {
    var size := CharSizer(u);
    assert Total(size, "\n") == 1;
    if |lines| == 1 {
      TotalConcat(size, lines[0], "\n");
      TotalOne(LineSizer(u), lines[0]);
      assert lines == [lines[0]];
    } else {
      ContentSize(u, lines[1..]);
      assert Content(lines) == lines[0] + ("\n" + Content(lines[1..]));
      TotalConcat(size, lines[0], "\n" + Content(lines[1..]));
      TotalConcat(size, "\n", Content(lines[1..]));
    }
  }

  // ---------------------------------------------------------------------
  // Lines
  // ---------------------------------------------------------------------

  function MarkerPrefix(e: Entry): string {
    match e.marker
    case Some(m) => "(" + MarkerText(m) + ") "
    case None => ""
  }

  /** An item's line without its list marker. */
  function ItemBody(e: Entry): string {
    MarkerPrefix(e) + e.text + " [" + Join(e.refs, ", ") + "]"
  }

  function ItemLine(e: Entry): string { "- " + ItemBody(e) }

  function ItemLines(es: seq<Entry>): seq<string> {
    seq(|es|, i requires 0 <= i < |es| => ItemLine(es[i]))
  }

  function SectionLines(style: Style, heading: string): seq<string> {
    ["", if style.Markdown? then "## " + heading else heading]
  }

  function Quoted(paths: seq<string>): seq<string> {
    seq(|paths|, i requires 0 <= i < |paths| => "`" + paths[i] + "`")
  }

  function ScopeHeading(style: Style, paths: seq<string>): string {
    if style.Markdown? then "### In " + Join(Quoted(paths), ", ") else "In " + Join(paths, ", ")
  }

  // ---------------------------------------------------------------------
  // Rendering
  // ---------------------------------------------------------------------

  function OfSection(es: seq<Entry>, i: nat): seq<Entry> {
    if es == [] then [] else
    var n := |es| - 1;
    if es[n].section == i then OfSection(es[..n], i) + [es[n]] else OfSection(es[..n], i)
  }

  function InGroup(es: seq<Entry>, group: string): seq<Entry> {
    if es == [] then []
    else if es[0].group == group then [es[0]] + InGroup(es[1..], group)
    else InGroup(es[1..], group)
  }

  /** The scope keys of a section's entries, each once. */
  function GroupNames(es: seq<Entry>): seq<string> {
    if es == [] then [] else
    var n := |es| - 1;
    var names := GroupNames(es[..n]);
    if es[n].group != "" && es[n].group !in names then names + [es[n].group] else names
  }

  function ByOrder(): (Entry, Entry) -> bool { (a: Entry, b: Entry) => a.order <= b.order }

  function GroupBlock(style: Style, members: seq<Entry>): seq<string> {
    if members == [] then [] else ["", ScopeHeading(style, members[0].paths)] + ItemLines(members)
  }

  function GroupBlocks(style: Style, es: seq<Entry>, groups: seq<string>): seq<string> {
    if groups == [] then [] else
    GroupBlock(style, InGroup(es, groups[0])) + GroupBlocks(style, es, groups[1..])
  }

  function SectionBlock(style: Style, heading: string, es: seq<Entry>): seq<string> {
    if es == [] then [] else
    SectionLines(style, heading) + ItemLines(InGroup(es, "")) +
    GroupBlocks(style, es, Sort(LexLe, GroupNames(es)))
  }

  /** A section's entries in the order they print. */
  function Shown(included: seq<Entry>, i: nat): seq<Entry> { Sort(ByOrder(), OfSection(included, i)) }

  function Body(sections: seq<Section>, style: Style, included: seq<Entry>, i: nat): seq<string>
    decreases |sections| - i
  {
    if i >= |sections| then [] else
    SectionBlock(style, sections[i].heading, Shown(included, i)) + Body(sections, style, included, i + 1)
  }

  function TailLines(tail: seq<string>): seq<string> { if tail == [] then [] else [""] + tail }

  function DocumentLines(sections: seq<Section>, layout: Layout, included: seq<Entry>): seq<string> {
    layout.head + Body(sections, layout.style, included, 0) + TailLines(layout.tail)
  }

  function Content(lines: seq<string>): string { Join(lines, "\n") + "\n" }

  lemma BodyNext(sections: seq<Section>, style: Style, included: seq<Entry>, i: nat)
    ensures Body(sections, style, included, i) ==
            if i >= |sections| then []
            else SectionBlock(style, sections[i].heading, Shown(included, i)) + Body(sections, style, included, i + 1)
  {
    hide SectionBlock, Shown;
  }

  method Render(selection: Selection, included: seq<Entry>, layout: Layout) returns (content: string)
    ensures content == Content(DocumentLines(selection.sections, layout, included))
  {
    hide Body, SectionBlock, Shown, Join;
    var sections, style := selection.sections, layout.style;
    var lines := layout.head;
    for i := 0 to |sections|
      invariant lines + Body(sections, style, included, i) == layout.head + Body(sections, style, included, 0)
    {
      BodyNext(sections, style, included, i);
      var entries := Shown(included, i);
      var block := RenderSection(style, sections[i].heading, entries);
      lines := lines + block;
    }
    BodyNext(sections, style, included, |sections|);
    assert lines == layout.head + Body(sections, style, included, 0);
    if layout.tail != [] { lines := lines + ([""] + layout.tail); }
    content := Join(lines, "\n") + "\n";
  }

  lemma GroupBlocksNext(style: Style, es: seq<Entry>, groups: seq<string>, j: nat)
    requires j <= |groups|
    ensures GroupBlocks(style, es, groups[j..]) ==
            if j == |groups| then []
            else GroupBlock(style, InGroup(es, groups[j])) + GroupBlocks(style, es, groups[j + 1..])
  {
    hide GroupBlock, InGroup;
    if j < |groups| { assert groups[j..][1..] == groups[j + 1..]; }
  }

  method RenderSection(style: Style, heading: string, entries: seq<Entry>) returns (lines: seq<string>)
    ensures lines == SectionBlock(style, heading, entries)
  {
    hide InGroup, GroupNames, GroupBlock, GroupBlocks, Sort, LexLe, SectionLines, ItemLines;
    if entries == [] { return []; }
    lines := SectionLines(style, heading) + ItemLines(InGroup(entries, ""));
    var groups := Sort(LexLe, GroupNames(entries));
    ghost var start := lines;
    assert groups[0..] == groups;
    for j := 0 to |groups|
      invariant lines + GroupBlocks(style, entries, groups[j..]) == start + GroupBlocks(style, entries, groups)
    {
      GroupBlocksNext(style, entries, groups, j);
      lines := lines + GroupBlock(style, InGroup(entries, groups[j]));
    }
    GroupBlocksNext(style, entries, groups, |groups|);
  }

  // ---------------------------------------------------------------------
  // The fill
  // ---------------------------------------------------------------------

  predicate HasSection(es: seq<Entry>, section: nat) {
    exists k | 0 <= k < |es| :: es[k].section == section
  }

  predicate HasGroup(es: seq<Entry>, section: nat, group: string) {
    exists k | 0 <= k < |es| :: es[k].section == section && es[k].group == group
  }

  function When(c: bool, size: nat): nat { if c then size else 0 }

  function HeadingSize(u: Unit, sections: seq<Section>, style: Style, section: nat): nat
    requires section < |sections|
  {
    Measure(u, SectionLines(style, sections[section].heading))
  }

  function ScopeSize(u: Unit, style: Style, paths: seq<string>): nat {
    Measure(u, ["", ScopeHeading(style, paths)])
  }

  /** What one more entry adds to a document that holds `included`: its line, and the
      headings it is the first to need. */
  function Cost(u: Unit, sections: seq<Section>, style: Style, included: seq<Entry>, e: Entry): nat
    requires e.section < |sections|
  {
    Measure(u, [ItemLine(e)])
    + When(!HasSection(included, e.section), HeadingSize(u, sections, style, e.section))
    + When(e.group != "" && !HasGroup(included, e.section, e.group), ScopeSize(u, style, e.paths))
  }

  predicate Fits(bytes: nat, chars: nat, limit: Limit) {
    bytes <= limit.bytes && (limit.chars.None? || chars <= limit.chars.value)
  }

  /** The size of the whole document with these entries. */
  function DocumentSize(u: Unit, sections: seq<Section>, layout: Layout, included: seq<Entry>): nat {
    Measure(u, DocumentLines(sections, layout, included))
  }

  predicate DocumentFits(sections: seq<Section>, layout: Layout, limit: Limit, included: seq<Entry>) {
    Fits(DocumentSize(Bytes, sections, layout, included), DocumentSize(Chars, sections, layout, included), limit)
  }

  /** The fill by its meaning: take each entry in turn, render the whole document with
      it, and keep it if that document fits. */
  function Greedy(sections: seq<Section>, layout: Layout, limit: Limit, queue: seq<Entry>): seq<Entry> {
    if queue == [] then [] else
    var n := |queue| - 1;
    var kept := Greedy(sections, layout, limit, queue[..n]);
    if DocumentFits(sections, layout, limit, kept + [queue[n]]) then kept + [queue[n]] else kept
  }

  /** The entries the fill passes over. */
  function Passed(sections: seq<Section>, layout: Layout, limit: Limit, queue: seq<Entry>): seq<Entry> {
    if queue == [] then [] else
    var n := |queue| - 1;
    var kept := Greedy(sections, layout, limit, queue[..n]);
    var passed := Passed(sections, layout, limit, queue[..n]);
    if DocumentFits(sections, layout, limit, kept + [queue[n]]) then passed else passed + [queue[n]]
  }

  /** Every section's best line first: by rank, then section, then order. */
  function FillOrder(): (Entry, Entry) -> bool {
    (a: Entry, b: Entry) =>
      if a.rank != b.rank then a.rank < b.rank
      else if a.section != b.section then a.section < b.section
      else a.order <= b.order
  }

  function GroupId(section: nat, group: string): string { Decimal(section) + "\n" + group }

  lemma GroupIdInjective(s: nat, g: string, s': nat, g': string)
    ensures GroupId(s, g) == GroupId(s', g') ==> s == s' && g == g'
  {
    DecimalRoundTrip(s);
    DecimalRoundTrip(s');
    assert '\n' !in Decimal(s) && '\n' !in Decimal(s');
    IndexOfPrefix(Decimal(s), '\n', g);
    IndexOfPrefix(Decimal(s'), '\n', g');
    var a, b := GroupId(s, g), GroupId(s', g');
    if a == b {
      assert a[..|Decimal(s)|] == Decimal(s) && b[..|Decimal(s')|] == Decimal(s');
      assert a[|Decimal(s)| + 1..] == g && b[|Decimal(s')| + 1..] == g';
    }
  }
}
