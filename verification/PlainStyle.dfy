/** The plain style of packages/compiler/src/document.ts: the markdown file without its marks. */
module PlainStyle {
  import opened Text
  import opened Sorting
  import opened Model
  import opened Document
  import Budget

  function Without(s: string, c: char): string {
    if s == "" then "" else if s[0] == c then Without(s[1..], c) else [s[0]] + Without(s[1..], c)
  }

  /** A line of a markdown file, and the same line of a plain one. */
  predicate Unmarked(line: string, plain: string) {
    if "### " <= line then plain == Without(line[4..], '`')
    else if "## " <= line then plain == line[3..]
    else plain == line
  }

  predicate AllUnmarked(lines: seq<string>, plain: seq<string>) {
    |lines| == |plain| && forall i | 0 <= i < |lines| :: Unmarked(lines[i], plain[i])
  }

  lemma AllUnmarkedConcat(a: seq<string>, b: seq<string>, c: seq<string>, d: seq<string>)
    requires AllUnmarked(a, b) && AllUnmarked(c, d)
    ensures AllUnmarked(a + c, b + d)
  {
  }

  lemma {:induction false} WithoutConcat(s: string, t: string, c: char)
    ensures Without(s + t, c) == Without(s, c) + Without(t, c)
  {
    if s == "" {
      assert s + t == t;
    } else {
      assert (s + t)[1..] == s[1..] + t;
      WithoutConcat(s[1..], t, c);
    }
  }

  lemma {:induction false} NothingWithout(s: string, c: char)
    requires c !in s
    ensures Without(s, c) == s
  {
    if s != "" { NothingWithout(s[1..], c); }
  }

  lemma QuoteWithout(path: string)
    requires IsGlob(path)
    ensures Without("`" + path + "`", '`') == path
  {
    assert '`' !in path;
    NothingWithout(path, '`');
    WithoutConcat("`" + path, "`", '`');
    WithoutConcat("`", path, '`');
    assert Without("`", '`') == "";
  }

  lemma {:induction false} QuotesWithout(paths: seq<string>)
    requires Globs(paths)
    ensures Without(Join(Quoted(paths), ", "), '`') == Join(paths, ", ")
  {
    if paths != [] {
      QuoteWithout(paths[0]);
      assert Quoted(paths)[1..] == Quoted(paths[1..]);
      if |paths| > 1 {
        QuotesWithout(paths[1..]);
        WithoutConcat(Quoted(paths)[0] + ", ", Join(Quoted(paths[1..]), ", "), '`');
        WithoutConcat(Quoted(paths)[0], ", ", '`');
        NothingWithout(", ", '`');
      }
    }
  }

  lemma HeadingUnmarked(heading: string)
    ensures AllUnmarked(SectionLines(Markdown, heading), SectionLines(Plain, heading))
  {
    var line := "## " + heading;
    assert line[3..] == heading && line[2] == ' ';
  }

  lemma ScopeUnmarked(paths: seq<string>)
    requires Globs(paths)
    ensures Unmarked(ScopeHeading(Markdown, paths), ScopeHeading(Plain, paths))
  {
    hide Join;
    var inner := Join(Quoted(paths), ", ");
    var line := ScopeHeading(Markdown, paths);
    assert line == "### " + ("In " + inner);
    assert line[4..] == "In " + inner;
    WithoutConcat("In ", inner, '`');
    NothingWithout("In ", '`');
    QuotesWithout(paths);
  }

  lemma ItemsUnmarked(es: seq<Entry>)
    ensures AllUnmarked(ItemLines(es), ItemLines(es))
  {
    hide ItemBody;
    forall i | 0 <= i < |es|
      ensures Unmarked(ItemLine(es[i]), ItemLine(es[i]))
    {
      assert ItemLine(es[i])[0] == '-';
    }
  }

  lemma {:induction false} GroupsUnmarked(es: seq<Entry>, groups: seq<string>)
    requires forall e | e in es :: Globs(e.paths)
    ensures AllUnmarked(GroupBlocks(Markdown, es, groups), GroupBlocks(Plain, es, groups))
    decreases |groups|
  {
    hide InGroup, AllUnmarked, ItemLine, ScopeHeading, Unmarked;
    if groups == [] {
      NothingUnmarked();
    } else {
      var members := InGroup(es, groups[0]);
      GroupsUnmarked(es, groups[1..]);
      Budget.InGroupMembers(es, groups[0]);
      if members == [] {
        NothingUnmarked();
      } else {
        assert members[0] in es;
        ItemsUnmarked(members);
        OneUnmarked(members[0].paths);
        AllUnmarkedConcat(["", ScopeHeading(Markdown, members[0].paths)], ["", ScopeHeading(Plain, members[0].paths)],
                          ItemLines(members), ItemLines(members));
      }
      AllUnmarkedConcat(GroupBlock(Markdown, members), GroupBlock(Plain, members),
                        GroupBlocks(Markdown, es, groups[1..]), GroupBlocks(Plain, es, groups[1..]));
    }
  }

  lemma OneUnmarked(paths: seq<string>)
    requires Globs(paths)
    ensures AllUnmarked(["", ScopeHeading(Markdown, paths)], ["", ScopeHeading(Plain, paths)])
  {
    hide ScopeHeading;
    ScopeUnmarked(paths);
  }

  lemma NothingUnmarked()
    ensures AllUnmarked([], [])
  {
  }

  lemma SectionUnmarked(heading: string, es: seq<Entry>)
    requires forall e | e in es :: Globs(e.paths)
    ensures AllUnmarked(SectionBlock(Markdown, heading, es), SectionBlock(Plain, heading, es))
  {
    hide InGroup, AllUnmarked, ItemLine, GroupBlocks, SectionLines, GroupNames, Sort, LexLe;
    if es == [] {
      NothingUnmarked();
    } else {
      var loose, groups := InGroup(es, ""), Sort(LexLe, GroupNames(es));
      HeadingUnmarked(heading);
      ItemsUnmarked(loose);
      GroupsUnmarked(es, groups);
      var md, pl, items := SectionLines(Markdown, heading), SectionLines(Plain, heading), ItemLines(loose);
      AllUnmarkedConcat(md, pl, items, items);
      AllUnmarkedConcat(md + items, pl + items, GroupBlocks(Markdown, es, groups), GroupBlocks(Plain, es, groups));
    }
  }

  /** Line by line, the plain file is the markdown file without the marks of its headings and without the backticks in
      its scope headings. Nothing else differs. */
  lemma {:induction false} PlainIsUnmarked(sections: seq<Section>, included: seq<Entry>, i: nat)
    requires forall e | e in included :: Globs(e.paths)
    ensures AllUnmarked(Body(sections, Markdown, included, i), Body(sections, Plain, included, i))
    decreases |sections| - i
  {
    hide SectionBlock, Shown, AllUnmarked, Globs;
    if i >= |sections| {
      NothingUnmarked();
    } else {
      var es := Shown(included, i);
      ShownIn(included, i);
      SectionUnmarked(sections[i].heading, es);
      PlainIsUnmarked(sections, included, i + 1);
      AllUnmarkedConcat(SectionBlock(Markdown, sections[i].heading, es), SectionBlock(Plain, sections[i].heading, es),
                        Body(sections, Markdown, included, i + 1), Body(sections, Plain, included, i + 1));
    }
  }

  lemma ShownIn(included: seq<Entry>, i: nat)
    ensures forall e | e in Shown(included, i) :: e in included
  {
    hide Sort;
    Budget.OfSectionMembers(included, i);
    SortContents(ByOrder(), OfSection(included, i));
    SameMembers(Shown(included, i), OfSection(included, i));
  }
}
