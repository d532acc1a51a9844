/** The parser of packages/compiler/src/parse.ts undoes the printer of document.ts. */
module RoundTrip {
  import opened Text
  import opened Sorting
  import opened Model
  import opened Document
  import opened Patterns
  import opened Parse
  import opened Budget

  // ---------------------------------------------------------------------
  // Single lines
  // ---------------------------------------------------------------------

  /** A ref followed by the rest of a list: what comes after each comma starts with a space. */
  function Spaced(refs: seq<string>): seq<string> {
    seq(|refs|, i requires 0 <= i < |refs| => " " + refs[i])
  }

  predicate Refs(refs: seq<string>) { forall r | r in refs :: IsRef(r) }

  lemma RefPlain(r: string)
    requires IsRef(r)
    ensures ',' !in r && '[' !in r && Trimmed(r) && !IsSpace(r[0])
    ensures Trim(r) == r && Trim(" " + r) == r
  {
    TrimTrimmed(r);
    assert (" " + r)[1..] == r;
  }

  lemma {:induction false} SplitRefs(pre: string, refs: seq<string>)
    requires refs != [] && Refs(refs) && ',' !in pre
    ensures Split(pre + Join(refs, ", "), ',') == [pre + refs[0]] + Spaced(refs[1..])
    decreases |refs|
  {
    hide IsRef, Trim;
    RefPlain(refs[0]);
    if |refs| == 1 {
      IndexOfAbsent(pre + refs[0], ',');
    } else {
      SplitRefs(" ", refs[1..]);
      SplitMoreRefs(pre, refs);
    }
  }

  lemma SplitMoreRefs(pre: string, refs: seq<string>)
    requires |refs| > 1 && ',' !in pre && ',' !in refs[0]
    requires Split(" " + Join(refs[1..], ", "), ',') == [" " + refs[1]] + Spaced(refs[2..])
    ensures Split(pre + Join(refs, ", "), ',') == [pre + refs[0]] + Spaced(refs[1..])
  {
    hide Split, Join;
    var rest := Join(refs[1..], ", ");
    JoinMore(refs, ", ");
    assert pre + Join(refs, ", ") == (pre + refs[0]) + [','] + (" " + rest);
    SplitFirst(pre + refs[0], ',', " " + rest);
    assert Spaced(refs[1..]) == [" " + refs[1]] + Spaced(refs[2..]);
  }

  lemma JoinMore(parts: seq<string>, sep: string)
    requires |parts| > 1
    ensures Join(parts, sep) == parts[0] + sep + Join(parts[1..], sep)
  {
  }

  lemma {:induction false} JoinedRefs(refs: seq<string>)
    requires refs != [] && Refs(refs)
    ensures var s := Join(refs, ", ");
            s != "" && s[0] == 'M' && !IsSpace(s[|s| - 1]) && '[' !in s
  {
    RefPlain(refs[0]);
    if |refs| > 1 {
      JoinedRefs(refs[1..]);
      var s, t := Join(refs, ", "), Join(refs[1..], ", ");
      assert s == refs[0] + ", " + t;
      assert s[|s| - 1] == t[|t| - 1];
    }
  }

  lemma CiteRefsExact(refs: seq<string>)
    requires refs != [] && Refs(refs)
    ensures CiteRefs(Join(refs, ", ")) == Some(refs)
  {
    hide Trim, IsRef, Split;
    var s := Join(refs, ", ");
    JoinedRefs(refs);
    SplitRefs("", refs);
    assert "" + s == s && "" + refs[0] == refs[0];
    var parts := Split(s, ',');
    forall i | 0 <= i < |parts|
      ensures Trim(parts[i]) == refs[i]
    {
      assert refs[i] in refs;
      RefPlain(refs[i]);
    }
    assert Trims(parts) == refs;
  }

  lemma {:induction false} LastIndexExact(a: string, c: char, b: string)
    requires c !in b
    ensures LastIndexOf(a + [c] + b, c) == |a|
  {
    var s := a + [c] + b;
    if b != "" {
      var n := |s| - 1;
      assert s[n] == b[|b| - 1];
      assert s[..n] == a + [c] + b[..|b| - 1];
      LastIndexExact(a, c, b[..|b| - 1]);
    }
  }

  /** The cites printed at the end of a line are the cites read from it. */
  lemma CitesExact(words: string, refs: seq<string>)
    requires Trimmed(words) && refs != [] && Refs(refs)
    ensures CitesMatch(words + " [" + Join(refs, ", ") + "]") == Some(Cited(words, refs))
  {
    hide CiteRefs, TrimStart, TrimEnd;
    var inner := Join(refs, ", ");
    var s := words + " [" + inner + "]";
    JoinedRefs(refs);
    assert s == (words + " ") + ['['] + (inner + "]");
    LastIndexExact(words + " ", '[', inner + "]");
    assert s[|words| + 2..|s| - 1] == inner;
    CiteRefsExact(refs);
    assert s[..|words| + 1] == words + " ";
    TrimSpaceAfter(words);
  }

  lemma TrimSpaceAfter(s: string)
    requires Trimmed(s)
    ensures Trim(s + " ") == s
  {
    TrimTrimmed(s);
    assert (s + " ")[..|s|] == s;
    if s == "" {
      assert (s + " ")[1..] == "";
    } else {
      assert TrimStart(s + " ") == s + " ";
    }
  }

  /** What a printed entry must satisfy to be read back: clean words with visible ends, at
      least one cite, and no unmarked line that looks marked. */
  predicate Printable(env: Env, e: Entry) {
    && e.text != "" && Trimmed(e.text) && NoTerminator(e.text)
    && e.refs != [] && Refs(e.refs)
    && (e.marker.None? ==> MarkerMatch(e.text).None?)
    && env.clean(ItemBody(e)) == ItemBody(e)
  }

  function MarkerOf(e: Entry): Option<string> {
    match e.marker
    case Some(m) => Some(MarkerText(m))
    case None => None
  }

  function ParsedEntry(e: Entry, n: nat, section: Option<string>, paths: seq<string>): ParsedLine {
    ParsedLine(n, Item, e.text, e.refs, MarkerOf(e), section, paths)
  }

  lemma MarkedExact(prefix: string, text: string)
    requires Trimmed(text) && text != ""
    ensures MarkedWith(prefix + " " + text, prefix)
    ensures TrimStart((prefix + " " + text)[|prefix|..]) == text
  {
    var s := prefix + " " + text;
    TrimTrimmed(text);
    assert s[|prefix|..] == " " + text && (" " + text)[1..] == text;
    assert s[..|prefix|] == prefix;
  }

  lemma MarkerPrefixes()
    ensures "(" + MarkerText(BeingVerified) + ") " == "(Being verified)" + " "
    ensures "(" + MarkerText(InConflict) + ") " == "(In conflict)" + " "
    ensures |"(Being verified)"| == 16 && |"(In conflict)"| == 13
  {
  }

  lemma MarkerExact(e: Entry)
    requires e.text != "" && Trimmed(e.text) && (e.marker.None? ==> MarkerMatch(e.text).None?)
    ensures Trimmed(MarkerPrefix(e) + e.text)
    ensures MarkerMatch(MarkerPrefix(e) + e.text) == match e.marker
            case Some(m) => Some(Marked(MarkerText(m), e.text))
            case None => None
  {
    var s := MarkerPrefix(e) + e.text;
    MarkerPrefixes();
    match e.marker
    case Some(BeingVerified) =>
      MarkedExact("(Being verified)", e.text);
      assert s == "(Being verified)" + " " + e.text;
    case Some(InConflict) =>
      MarkedExact("(In conflict)", e.text);
      assert s == "(In conflict)" + " " + e.text;
      assert s[1] == 'I';
    case None =>
      assert s == e.text;
  }

  lemma TextLineExact(e: Entry, n: nat, section: Option<string>, paths: seq<string>)
    requires e.text != "" && Trimmed(e.text) && (e.marker.None? ==> MarkerMatch(e.text).None?)
    requires e.refs != [] && Refs(e.refs)
    ensures TextLine(n, Item, ItemBody(e), section, paths) == ParsedEntry(e, n, section, paths)
  {
    MarkerExact(e);
    CitesExact(MarkerPrefix(e) + e.text, e.refs);
  }

  // ---------------------------------------------------------------------
  // Printed lines, read one by one
  // ---------------------------------------------------------------------

  predicate IsItem(l: ParsedLine) { l.kind == Item }

  function Items(ls: seq<ParsedLine>): seq<ParsedLine> {
    if ls == [] then [] else
    var n := |ls| - 1;
    if IsItem(ls[n]) then Items(ls[..n]) + [ls[n]] else Items(ls[..n])
  }

  lemma ItemsPush(ls: seq<ParsedLine>, l: ParsedLine)
    ensures Items(ls + [l]) == if IsItem(l) then Items(ls) + [l] else Items(ls)
  {
    assert (ls + [l])[..|ls|] == ls;
  }

  /** Between fences, with these items read so far, under this section and scope. */
  ghost predicate At(st: State, items: seq<ParsedLine>, section: Option<string>, scope: Option<seq<string>>): (r: bool)
    ensures r ==> StateOk(st)
  {
    StateOk(st) && !st.inFence && Items(st.lines) == items && st.section == section && st.scope == scope
  }

  /** Text that starts with a character no other pattern looks at. */
  lemma NotSpecial(text: string)
    requires text != "" && Trimmed(text) && text[0] in {'-', '#'}
    ensures TrimStart(text) == text && TrimEnd(text) == text && Trim(text) == text
    ensures !IsFence(text) && !IsHeader(text) && !IsComment(text) && !IsImport(text) && !IsIndented(text)
    ensures text != ManagedBlock.START && text != ManagedBlock.END
  {
    TrimTrimmed(text);
  }

  lemma ItemMatchExact(body: string)
    requires body != "" && Trimmed(body) && NoTerminator(body)
    ensures Trimmed("- " + body) && ItemMatch("- " + body) == Some(body) && HeadingMatch("- " + body).None?
  {
    var s := "- " + body;
    TrimTrimmed(body);
    assert s[1..] == " " + body && (" " + body)[1..] == body;
  }

  lemma BodyShape(e: Entry)
    requires e.text != "" && Trimmed(e.text) && NoTerminator(e.text) && e.refs != [] && Refs(e.refs)
    ensures ItemBody(e) != "" && Trimmed(ItemBody(e)) && NoTerminator(ItemBody(e))
  {
    RefsVisible(e.refs);
    assert NoTerminator(MarkerPrefix(e));
    var body := ItemBody(e);
    assert body[0] == (MarkerPrefix(e) + e.text)[0];
    assert body[|body| - 1] == ']';
  }

  lemma {:induction false} RefsVisible(refs: seq<string>)
    requires Refs(refs)
    ensures NoTerminator(Join(refs, ", "))
  {
    if refs != [] {
      assert refs[0] in refs;
      RefsVisible(refs[1..]);
    }
  }

  lemma ReadItem(env: Env, files: seq<string>, st: State, n: nat, e: Entry,
                 items: seq<ParsedLine>, section: Option<string>, scope: Option<seq<string>>)
    requires At(st, items, section, scope) && Printable(env, e)
    ensures At(Step(env, files, st, n, ItemLine(e)),
               items + [ParsedEntry(e, n, section, scope.GetOr(files))], section, scope)
  {
    var text := ItemLine(e);
    BodyShape(e);
    ItemMatchExact(ItemBody(e));
    NotSpecial(text);
    TextLineExact(e, n, section, scope.GetOr(files));
    ItemsPush(st.lines, ParsedEntry(e, n, section, scope.GetOr(files)));
  }

  lemma ReadBlank(env: Env, files: seq<string>, st: State, n: nat,
                  items: seq<ParsedLine>, section: Option<string>, scope: Option<seq<string>>)
    requires At(st, items, section, scope)
    ensures At(Step(env, files, st, n, ""), items, section, scope)
    ensures Step(env, files, st, n, "").itemRaw.None?
  {
    ItemsPush(st.lines, Bare(n, Blank, "", section, scope.GetOr(files)));
  }

  lemma {:induction false} HashesExact(hashes: string, rest: string)
    requires (forall c | c in hashes :: c == '#') && (rest == "" || rest[0] != '#')
    ensures HashRun(hashes + rest) == |hashes|
  {
    if hashes == "" {
      assert hashes + rest == rest;
    } else {
      assert hashes[0] in hashes && forall c | c in hashes[1..] :: c in hashes;
      assert (hashes + rest)[1..] == hashes[1..] + rest;
      HashesExact(hashes[1..], rest);
    }
  }

  /** Headings that read back as they print: visible ends and no closing hashes. */
  predicate PrintableTitle(env: Env, title: string) {
    title != "" && Trimmed(title) && NoTerminator(title) && Title(title) == title && env.clean(title) == title
  }

  lemma HeadingExact(env: Env, hashes: string, title: string)
    requires 1 <= |hashes| <= 6 && forall c | c in hashes :: c == '#'
    requires PrintableTitle(env, title)
    ensures var s := hashes + " " + title;
            Trimmed(s) && s[0] == '#' && HeadingMatch(s) == Some(HeadingLine(|hashes|, title)) && ItemMatch(s).None?
  {
    hide HashRun, Title;
    var s := hashes + " " + title;
    assert s == hashes + (" " + title);
    HashesExact(hashes, " " + title);
    TrimTrimmed(title);
    assert s[|hashes|..] == " " + title && (" " + title)[1..] == title;
    assert s[0] == hashes[0] && hashes[0] in hashes;
    assert s[|s| - 1] == title[|title| - 1];
    assert TrimStart(s) == s;
  }

  lemma ReadHeading(env: Env, files: seq<string>, st: State, n: nat, hashes: string, title: string,
                    items: seq<ParsedLine>, section: Option<string>, scope: Option<seq<string>>)
    requires At(st, items, section, scope)
    requires hashes == "##" || hashes == "###"
    requires PrintableTitle(env, title)
    ensures At(Step(env, files, st, n, hashes + " " + title), items,
               if hashes == "##" then Some(title) else section,
               if hashes == "##" then None else ScopeMatch(title))
  {
    HeadingExact(env, hashes, title);
    NotSpecial(hashes + " " + title);
    var r := Step(env, files, st, n, hashes + " " + title);
    ItemsPush(st.lines, Bare(n, Heading, title, r.section, r.scope.GetOr(files)));
  }

  // ---------------------------------------------------------------------
  // Scope headings
  // ---------------------------------------------------------------------

  lemma GlobPlain(p: string)
    requires IsGlob(p)
    ensures '`' !in p && ' ' !in p && ',' !in p && p != "" && NoTerminator(p)
  {
  }

  /** No `, ` inside: the first one is the separator. */
  lemma {:induction false} CommaAtExact(a: string, rest: string)
    requires ' ' !in a
    ensures CommaAt(a + (", " + rest)) == |a|
  {
    var s := a + (", " + rest);
    if a == "" {
      assert s == ", " + rest;
      assert s[..2] == ", ";
    } else {
      assert s[1..] == a[1..] + (", " + rest);
      assert s[1] == (a[1..] + (", " + rest))[0];
      CommaAtExact(a[1..], rest);
    }
  }

  lemma {:induction false} CommaAtAbsent(a: string)
    requires ' ' !in a
    ensures CommaAt(a) == |a|
  {
    if a != "" {
      CommaAtAbsent(a[1..]);
      assert |a| > 1 ==> a[1] in a;
    }
  }

  lemma QuoteExact(p: string)
    requires IsGlob(p)
    ensures var q := "`" + p + "`"; ' ' !in q && Unquote(q) == p
    ensures forall rest: string :: IndexOf((p + "`") + rest, '`') == |p|
  {
    GlobPlain(p);
    var q := "`" + p + "`";
    assert q[1..|q| - 1] == p;
    forall rest: string
      ensures IndexOf((p + "`") + rest, '`') == |p|
    {
      IndexOfPrefix(p, '`', rest);
      assert p + ['`'] + rest == (p + "`") + rest;
    }
  }

  lemma JoinQuoted(paths: seq<string>)
    requires |paths| > 1
    ensures Join(Quoted(paths), ", ") == ("`" + paths[0] + "`") + (", " + Join(Quoted(paths[1..]), ", "))
  {
    assert Quoted(paths)[1..] == Quoted(paths[1..]);
    JoinMore(Quoted(paths), ", ");
  }

  /** One more quoted glob in front of a list. */
  lemma QuotedStep(p: string, rest: string)
    requires IsGlob(p)
    ensures var q := "`" + p + "`";
            && BacktickList(q) && SplitCommas(q) == [q]
            && BacktickList(q + (", " + rest)) == BacktickList(rest)
            && SplitCommas(q + (", " + rest)) == [q] + SplitCommas(rest)
  {
    hide IsGlob;
    var q := "`" + p + "`";
    var s := q + (", " + rest);
    GlobPlain(p);
    QuoteExact(p);
    CommaAtAbsent(q);
    CommaAtExact(q, rest);
    assert q[1..] == (p + "`") + "" && q[|p| + 2..] == "";
    assert s[1..] == (p + "`") + (", " + rest);
    assert s[|p| + 2..] == ", " + rest && (", " + rest)[2..] == rest && (", " + rest)[..2] == ", ";
    assert s[..|q|] == q && s[|q| + 2..] == rest;
  }

  lemma {:induction false} QuotedExact(paths: seq<string>)
    requires paths != [] && Globs(paths)
    ensures var s := Join(Quoted(paths), ", ");
            BacktickList(s) && SplitCommas(s) == Quoted(paths) && s != "" && s[|s| - 1] == '`' && NoTerminator(s)
  {
    hide IsGlob, BacktickList, SplitCommas, NoTerminator;
    var p, s := paths[0], Join(Quoted(paths), ", ");
    var q := "`" + p + "`";
    GlobPlain(p);
    VisibleConcat("`", p);
    VisibleConcat("`" + p, "`");
    if |paths| == 1 {
      QuotedStep(p, "");
      assert s == q && Quoted(paths) == [q];
    } else {
      var rest := Join(Quoted(paths[1..]), ", ");
      JoinQuoted(paths);
      QuotedExact(paths[1..]);
      QuotedStep(p, rest);
      VisibleConcat(", ", rest);
      VisibleConcat(q, ", " + rest);
      assert s[|s| - 1] == rest[|rest| - 1];
      assert Quoted(paths) == [q] + Quoted(paths[1..]);
    }
  }

  lemma VisibleConcat(a: string, b: string)
    ensures NoTerminator(a + b) <==> NoTerminator(a) && NoTerminator(b)
    ensures NoTerminator("`") && NoTerminator(", ")
  {
    assert forall i | 0 <= i < |a| :: (a + b)[i] == a[i];
    assert forall i | 0 <= i < |b| :: (a + b)[|a| + i] == b[i];
  }

  /** The scope heading's own title. */
  function ScopeTitle(paths: seq<string>): string { "In " + Join(Quoted(paths), ", ") }

  /** The globs printed in a scope heading are the globs read from it. */
  lemma ScopeExact(paths: seq<string>)
    requires paths != [] && Globs(paths)
    ensures ScopeMatch(ScopeTitle(paths)) == Some(paths)
    ensures var t := ScopeTitle(paths); Trimmed(t) && NoTerminator(t) && Title(t) == t
    ensures ScopeHeading(Markdown, paths) == "###" + " " + ScopeTitle(paths)
  {
    hide BacktickList, SplitCommas, Join;
    var s, t := Join(Quoted(paths), ", "), ScopeTitle(paths);
    QuotedExact(paths);
    assert t[3..] == s && t[..3] == "In ";
    var parts := Quoted(paths);
    forall i | 0 <= i < |parts|
      ensures Unquote(parts[i]) == paths[i]
    {
      QuoteExact(paths[i]);
    }
    assert seq(|parts|, i requires 0 <= i < |parts| => Unquote(parts[i])) == paths;
    assert t[|t| - 1] == s[|s| - 1];
    assert "### In " + s == "###" + " " + t;
  }

  // ---------------------------------------------------------------------
  // The printed body
  // ---------------------------------------------------------------------

  /** An entry and the line it prints on. */
  datatype Spot = Spot(entry: Entry, line: nat)

  function Spots(es: seq<Entry>, n: nat): seq<Spot> {
    seq(|es|, i requires 0 <= i < |es| => Spot(es[i], n + i))
  }

  function GroupSpots(es: seq<Entry>, groups: seq<string>, n: nat): seq<Spot> {
    if groups == [] then [] else
    var members := InGroup(es, groups[0]);
    if members == [] then GroupSpots(es, groups[1..], n)
    else Spots(members, n + 2) + GroupSpots(es, groups[1..], n + 2 + |members|)
  }

  function SectionSpots(es: seq<Entry>, n: nat): seq<Spot> {
    if es == [] then [] else
    var loose := InGroup(es, "");
    Spots(loose, n + 2) + GroupSpots(es, Sort(LexLe, GroupNames(es)), n + 2 + |loose|)
  }

  function BodySpots(sections: seq<Section>, included: seq<Entry>, i: nat, n: nat): seq<Spot>
    decreases |sections| - i
  {
    if i >= |sections| then [] else
    var es := Shown(included, i);
    SectionSpots(es, n) +
    BodySpots(sections, included, i + 1, n + |SectionBlock(Markdown, sections[i].heading, es)|)
  }

  /** The globs a line falls under: its scope heading's, else the frontmatter's. */
  function PathsShown(e: Entry, files: seq<string>): seq<string> {
    if e.group == "" then files else e.paths
  }

  /** What should be read at a spot. */
  function Expected(sections: seq<Section>, files: seq<string>, s: Spot): ParsedLine {
    ParsedEntry(s.entry, s.line,
                if s.entry.section < |sections| then Some(sections[s.entry.section].heading) else None,
                PathsShown(s.entry, files))
  }

  function AllExpected(sections: seq<Section>, files: seq<string>, spots: seq<Spot>): seq<ParsedLine> {
    seq(|spots|, i requires 0 <= i < |spots| => Expected(sections, files, spots[i]))
  }

  lemma ExpectedConcat(sections: seq<Section>, files: seq<string>, a: seq<Spot>, b: seq<Spot>)
    ensures AllExpected(sections, files, a + b) == AllExpected(sections, files, a) + AllExpected(sections, files, b)
  {
  }

  lemma SpotsCons(sections: seq<Section>, files: seq<string>, es: seq<Entry>, n: nat, items: seq<ParsedLine>)
    requires es != []
    ensures items + AllExpected(sections, files, Spots(es, n)) ==
            items + [Expected(sections, files, Spot(es[0], n))] + AllExpected(sections, files, Spots(es[1..], n + 1))
    ensures ItemLines(es)[1..] == ItemLines(es[1..])
  {
    assert Spots(es, n) == [Spot(es[0], n)] + Spots(es[1..], n + 1);
  }

  /** Entries of one section that may be read under its heading. */
  predicate BodyOk(env: Env, sections: seq<Section>, es: seq<Entry>, i: nat) {
    && i < |sections| && PrintableTitle(env, sections[i].heading)
    && forall e | e in es :: EntryOk(e) && e.section == i && Printable(env, e)
                             && (e.group != "" ==> env.clean(ScopeTitle(e.paths)) == ScopeTitle(e.paths))
  }

  lemma NoSpots(sections: seq<Section>, files: seq<string>, n: nat, items: seq<ParsedLine>)
    ensures ItemLines([]) == [] && items + AllExpected(sections, files, Spots([], n)) == items
  {
  }

  lemma {:induction false} ReadItemLines(env: Env, sections: seq<Section>, files: seq<string>, st: State, n: nat,
      es: seq<Entry>, i: nat, items: seq<ParsedLine>, scope: Option<seq<string>>)
    requires BodyOk(env, sections, es, i) && At(st, items, Some(sections[i].heading), scope)
    requires forall e | e in es :: PathsShown(e, files) == scope.GetOr(files)
    ensures At(Fold(env, files, st, n, ItemLines(es)), items + AllExpected(sections, files, Spots(es, n)),
               Some(sections[i].heading), scope)
    decreases |es|
  {
    hide Step, Printable, PrintableTitle, EntryOk, ScopeTitle, PathsShown, ItemLine, At, AllExpected, Fold;
    if es != [] {
      var e := es[0];
      assert e in es;
      ReadItem(env, files, st, n, e, items, Some(sections[i].heading), scope);
      var next := Step(env, files, st, n, ItemLine(e));
      var line := ParsedEntry(e, n, Some(sections[i].heading), scope.GetOr(files));
      SpotsCons(sections, files, es, n, items);
      FoldStep(env, files, st, n, ItemLines(es), ItemLines(es[1..]));
      ReadItemLines(env, sections, files, next, n + 1, es[1..], i, items + [line], scope);
    } else {
      FoldEnd(env, files, st, n);
      NoSpots(sections, files, n, items);
    }
  }

  /** A blank line and a heading. */
  lemma ReadHeadingPair(env: Env, files: seq<string>, st: State, n: nat, hashes: string, title: string,
                        items: seq<ParsedLine>, section: Option<string>, scope: Option<seq<string>>)
    requires At(st, items, section, scope)
    requires hashes == "##" || hashes == "###"
    requires PrintableTitle(env, title)
    ensures At(Fold(env, files, st, n, ["", hashes + " " + title]), items,
               if hashes == "##" then Some(title) else section,
               if hashes == "##" then None else ScopeMatch(title))
  {
    hide Step, PrintableTitle, ScopeMatch;
    var line := hashes + " " + title;
    ReadBlank(env, files, st, n, items, section, scope);
    var next := Step(env, files, st, n, "");
    ReadHeading(env, files, next, n + 1, hashes, title, items, section, scope);
    FoldStep(env, files, st, n, ["", line], [line]);
    FoldStep(env, files, next, n + 1, [line], []);
    FoldEnd(env, files, Step(env, files, next, n + 1, line), n + 2);
  }

  lemma ReadGroupBlock(env: Env, sections: seq<Section>, files: seq<string>, st: State, n: nat,
      members: seq<Entry>, group: string, i: nat, items: seq<ParsedLine>, scope: Option<seq<string>>)
    requires BodyOk(env, sections, members, i) && At(st, items, Some(sections[i].heading), scope)
    requires members != [] && group != "" && forall e | e in members :: e.group == group
    ensures |GroupBlock(Markdown, members)| == 2 + |members|
    ensures At(Fold(env, files, st, n, GroupBlock(Markdown, members)),
               items + AllExpected(sections, files, Spots(members, n + 2)),
               Some(sections[i].heading), Some(members[0].paths))
  {
    hide Printable, Globs, IsGlob;
    var paths, title := members[0].paths, ScopeTitle(members[0].paths);
    assert members[0] in members;
    assert paths != [];
    ScopeExact(paths);
    ReadHeadingPair(env, files, st, n, "###", title, items, Some(sections[i].heading), scope);
    var opening := ["", ScopeHeading(Markdown, paths)];
    FoldConcat(env, files, st, n, opening, ItemLines(members));
    ScopeKeyInjective(paths);
    forall e | e in members
      ensures PathsShown(e, files) == paths
    {
      ScopeKeyInjective(e.paths);
    }
    ReadItemLines(env, sections, files, Fold(env, files, st, n, opening), n + 2, members, i, items, Some(paths));
  }

  lemma MembersOk(env: Env, sections: seq<Section>, es: seq<Entry>, i: nat, group: string)
    requires BodyOk(env, sections, es, i)
    ensures BodyOk(env, sections, InGroup(es, group), i)
    ensures forall e | e in InGroup(es, group) :: e.group == group
  {
    hide EntryOk, Printable, PrintableTitle, ScopeTitle;
    InGroupMembers(es, group);
  }

  lemma NoBlock(rest: seq<string>)
    ensures GroupBlock(Markdown, []) + rest == rest
  {
  }

  lemma NoneExpected(sections: seq<Section>, files: seq<string>, items: seq<ParsedLine>)
    ensures items + AllExpected(sections, files, []) == items
  {
  }

  lemma {:induction false} ReadGroups(env: Env, sections: seq<Section>, files: seq<string>, st: State, n: nat,
      es: seq<Entry>, groups: seq<string>, i: nat, items: seq<ParsedLine>, scope: Option<seq<string>>)
    returns (last: Option<seq<string>>)
    requires i < |sections| && BodyOk(env, sections, es, i)
    requires At(st, items, Some(sections[i].heading), scope) && "" !in groups
    ensures At(Fold(env, files, st, n, GroupBlocks(Markdown, es, groups)),
               items + AllExpected(sections, files, GroupSpots(es, groups, n)), Some(sections[i].heading), last)
    decreases |groups|
  {
    hide At, Fold, BodyOk, AllExpected, GroupBlock, Spots, InGroup;
    last := scope;
    if groups == [] {
      FoldEnd(env, files, st, n);
      NoneExpected(sections, files, items);
    } else {
      var members := InGroup(es, groups[0]);
      MembersOk(env, sections, es, i, groups[0]);
      assert groups[0] in groups;
      var rest := GroupBlocks(Markdown, es, groups[1..]);
      if members == [] {
        NoBlock(rest);
        last := ReadGroups(env, sections, files, st, n, es, groups[1..], i, items, scope);
      } else {
        ReadGroupBlock(env, sections, files, st, n, members, groups[0], i, items, scope);
        FoldConcat(env, files, st, n, GroupBlock(Markdown, members), rest);
        ExpectedConcat(sections, files, Spots(members, n + 2), GroupSpots(es, groups[1..], n + 2 + |members|));
        var some := AllExpected(sections, files, Spots(members, n + 2));
        var more := AllExpected(sections, files, GroupSpots(es, groups[1..], n + 2 + |members|));
        assert (items + some) + more == items + (some + more);
        last := ReadGroups(env, sections, files, Fold(env, files, st, n, GroupBlock(Markdown, members)),
                           n + 2 + |members|, es, groups[1..], i, items + some, Some(members[0].paths));
      }
    }
  }

  lemma ReadSection(env: Env, sections: seq<Section>, files: seq<string>, st: State, n: nat, es: seq<Entry>, i: nat,
                    items: seq<ParsedLine>, section: Option<string>, scope: Option<seq<string>>)
    returns (section': Option<string>, scope': Option<seq<string>>)
    requires es != [] ==> BodyOk(env, sections, es, i)
    requires At(st, items, section, scope) && i < |sections|
    ensures At(Fold(env, files, st, n, SectionBlock(Markdown, sections[i].heading, es)),
               items + AllExpected(sections, files, SectionSpots(es, n)), section', scope')
  {
    hide At, Fold, Printable, PrintableTitle, EntryOk, ScopeTitle, Expected, GroupBlocks, GroupSpots, GroupNames,
      Sort, LexLe, InGroup;
    if es == [] {
      FoldEnd(env, files, st, n);
      NoneExpected(sections, files, items);
      return section, scope;
    }
    var h := sections[i].heading;
    var opening, loose := SectionLines(Markdown, h), InGroup(es, "");
    var groups := Sort(LexLe, GroupNames(es));
    assert opening == ["", "##" + " " + h] by { assert "## " + h == "##" + " " + h; }
    ReadHeadingPair(env, files, st, n, "##", h, items, section, scope);
    var st1 := Fold(env, files, st, n, opening);
    MembersOk(env, sections, es, i, "");
    ReadItemLines(env, sections, files, st1, n + 2, loose, i, items, None);
    var st2 := Fold(env, files, st1, n + 2, ItemLines(loose));
    var some := AllExpected(sections, files, Spots(loose, n + 2));
    SortedGroups(es);
    var m := n + 2 + |loose|;
    var last := ReadGroups(env, sections, files, st2, m, es, groups, i, items + some, None);
    FoldConcat(env, files, st, n, opening, ItemLines(loose));
    FoldConcat(env, files, st, n, opening + ItemLines(loose), GroupBlocks(Markdown, es, groups));
    ExpectedConcat(sections, files, Spots(loose, n + 2), GroupSpots(es, groups, m));
    assert items + some + AllExpected(sections, files, GroupSpots(es, groups, m)) ==
           items + (some + AllExpected(sections, files, GroupSpots(es, groups, m)));
    return Some(h), last;
  }

  lemma SortedGroups(es: seq<Entry>)
    ensures "" !in Sort(LexLe, GroupNames(es))
  {
    GroupNamesExact(es);
    SortContents(LexLe, GroupNames(es));
    SameMembers(Sort(LexLe, GroupNames(es)), GroupNames(es));
  }

  predicate AllPrintable(env: Env, sections: seq<Section>, included: seq<Entry>) {
    && (forall s | s in sections :: PrintableTitle(env, s.heading))
    && (forall e | e in included :: EntryOk(e) && e.section < |sections| && Printable(env, e)
                                    && (e.group != "" ==> env.clean(ScopeTitle(e.paths)) == ScopeTitle(e.paths)))
  }

  lemma ShownOk(env: Env, sections: seq<Section>, included: seq<Entry>, i: nat)
    requires AllPrintable(env, sections, included) && i < |sections|
    ensures BodyOk(env, sections, Shown(included, i), i)
  {
    hide EntryOk, Printable, PrintableTitle, ScopeTitle;
    OfSectionMembers(included, i);
    SortContents(ByOrder(), OfSection(included, i));
    SameMembers(Shown(included, i), OfSection(included, i));
    assert sections[i] in sections;
  }

  lemma {:induction false} ReadBody(env: Env, sections: seq<Section>, files: seq<string>, st: State, n: nat,
      included: seq<Entry>, i: nat, items: seq<ParsedLine>, section: Option<string>, scope: Option<seq<string>>)
    returns (section': Option<string>, scope': Option<seq<string>>)
    requires AllPrintable(env, sections, included) && At(st, items, section, scope)
    ensures At(Fold(env, files, st, n, Body(sections, Markdown, included, i)),
               items + AllExpected(sections, files, BodySpots(sections, included, i, n)), section', scope')
    decreases |sections| - i
  {
    hide At, Fold, AllPrintable, Expected, SectionBlock, SectionSpots, Shown, BodyOk;
    section', scope' := section, scope;
    if i >= |sections| {
      FoldEnd(env, files, st, n);
      NoneExpected(sections, files, items);
    } else {
      var es := Shown(included, i);
      var block := SectionBlock(Markdown, sections[i].heading, es);
      ShownOk(env, sections, included, i);
      section', scope' := ReadSection(env, sections, files, st, n, es, i, items, section, scope);
      var next := Fold(env, files, st, n, block);
      var some := AllExpected(sections, files, SectionSpots(es, n));
      FoldConcat(env, files, st, n, block, Body(sections, Markdown, included, i + 1));
      ExpectedConcat(sections, files, SectionSpots(es, n), BodySpots(sections, included, i + 1, n + |block|));
      section', scope' :=
        ReadBody(env, sections, files, next, n + |block|, included, i + 1, items + some, section', scope');
      var more := AllExpected(sections, files, BodySpots(sections, included, i + 1, n + |block|));
      assert (items + some) + more == items + (some + more);
    }
  }

  // ---------------------------------------------------------------------
  // The whole document
  // ---------------------------------------------------------------------

  /** Lines that are no items leave no items behind, fenced or not. */
  lemma {:induction false} ReadQuiet(env: Env, files: seq<string>, st: State, n: nat, raws: seq<string>)
    requires StateOk(st) && st.itemRaw.None? && forall raw | raw in raws :: ItemMatch(TrimEnd(raw)).None?
    ensures Items(Fold(env, files, st, n, raws).lines) == Items(st.lines)
    decreases |raws|
  {
    if raws != [] {
      hide Fold, TextLine;
      var next := Step(env, files, st, n, raws[0]);
      assert raws[0] in raws;
      assert next.lines == st.lines + [next.lines[|st.lines|]] && next.lines[|st.lines|].kind != Item
             && next.itemRaw.None? by { QuietStep(env, files, st, n, raws[0]); }
      ItemsPush(st.lines, next.lines[|st.lines|]);
      ReadQuiet(env, files, next, n + 1, raws[1..]);
      FoldStep(env, files, st, n, raws, raws[1..]);
    } else {
      FoldEnd(env, files, st, n);
    }
  }

  lemma QuietStep(env: Env, files: seq<string>, st: State, n: nat, raw: string)
    requires StateOk(st) && st.itemRaw.None? && ItemMatch(TrimEnd(raw)).None?
    ensures var r := Step(env, files, st, n, raw);
            && |r.lines| == |st.lines| + 1 && r.lines[..|st.lines|] == st.lines
            && r.lines[|st.lines|].kind != Item && r.itemRaw.None?
  {
    hide ItemMatch, HeadingMatch, IsHeader, IsComment, IsImport, IsFence, Trim, CitesMatch, MarkerMatch, ScopeMatch;
  }

  /** Heads that read as no items: any frontmatter is closed, any fence too. */
  ghost predicate HeadQuiet(env: Env, head: seq<string>) {
    && head != [] && (head[0] == "" || head[0][0] != '\U{FEFF}')
    && (IsRule(head[0]) ==> FrontmatterClose(head).Some?)
    && Items(FinalState(env, head).lines) == [] && !FinalState(env, head).inFence
  }

  predicate TailQuiet(tail: seq<string>) {
    forall raw | raw in tail :: ItemMatch(TrimEnd(raw)).None?
  }

  lemma {:induction false} RuleFromPrefix(a: seq<string>, b: seq<string>, i: nat)
    requires i <= |a| && RuleFrom(a, i) < |a|
    ensures RuleFrom(a + b, i) == RuleFrom(a, i)
    decreases |a| - i
  {
    hide IsRule;
    assert i < |a| ==> (a + b)[i] == a[i];
    if i < |a| && !IsRule(a[i]) {
      RuleFromPrefix(a, b, i + 1);
    }
  }

  /** What follows the head doesn't change how the head reads. */
  lemma HeadStands(env: Env, head: seq<string>, rest: seq<string>)
    requires HeadQuiet(env, head)
    ensures FilePaths(env, head + rest) == FilePaths(env, head)
    ensures StateOk(FinalState(env, head))
    ensures FinalState(env, head + rest) ==
            Fold(env, FilePaths(env, head), FinalState(env, head), |head| + 1, rest)
  {
    hide IsRule, Fold, Items, AfterFrontmatter;
    var raws := head + rest;
    assert raws[0] == head[0];
    if IsRule(head[0]) {
      RuleFromPrefix(head, rest, 1);
    }
    var k := BodyStart(head);
    assert BodyStart(raws) == k;
    assert raws[..k] == head[..k] && raws[k..] == head[k..] + rest;
    assert IsRule(head[0]) ==> raws[1..k - 1] == head[1..k - 1];
    FoldConcat(env, FilePaths(env, head), InitialState(env, head), k + 1, head[k..], rest);
  }

  /** Parsing what was rendered finds, among the item lines, exactly the included entries, in
      print order: words, cites, marker, section heading, globs and line number. */
  lemma ParseUndoesRender(env: Env, sections: seq<Section>, layout: Layout, included: seq<Entry>)
    requires layout.style == Markdown && AllPrintable(env, sections, included)
    requires HeadQuiet(env, layout.head) && TailQuiet(layout.tail)
    requires forall l | l in layout.head + layout.tail :: NoBreak(l)
    ensures var lines := DocumentLines(sections, layout, included);
            Items(Parsed(env, SplitLines(Content(lines))).lines) ==
            AllExpected(sections, FilePaths(env, layout.head),
                        BodySpots(sections, included, 0, |layout.head| + 1))
  {
    hide Fold, HeadQuiet, AllPrintable, At, Items, Body, AllExpected, SplitLines, FinalState;
    var head, files := layout.head, FilePaths(env, layout.head);
    var body, tail := Body(sections, Markdown, included, 0), TailLines(layout.tail);
    var st := HeadState(env, head);
    var section, scope := ReadBody(env, sections, files, st, |head| + 1, included, 0, [], st.section, st.scope);
    HeadStands(env, head, body + tail);
    FoldConcat(env, files, st, |head| + 1, body, tail);
    assert head + body + tail == head + (body + tail);
    var expected := AllExpected(sections, files, BodySpots(sections, included, 0, |head| + 1));
    assert [] + expected == expected;
    ReadTail(env, files, Fold(env, files, st, |head| + 1, body), |head| + 1 + |body|, layout.tail,
             expected, section, scope);
    ContentSplits(env, sections, layout, included);
  }

  lemma HeadState(env: Env, head: seq<string>) returns (st: State)
    requires HeadQuiet(env, head)
    ensures st == FinalState(env, head) && At(st, [], st.section, st.scope)
  {
    st := FinalState(env, head);
    assert StateOk(st);
  }

  lemma ReadTail(env: Env, files: seq<string>, st: State, n: nat, tail: seq<string>,
                 items: seq<ParsedLine>, section: Option<string>, scope: Option<seq<string>>)
    requires At(st, items, section, scope) && TailQuiet(tail)
    ensures Items(Fold(env, files, st, n, TailLines(tail)).lines) == items
  {
    hide Fold, Step, ItemMatch;
    if tail == [] {
      FoldEnd(env, files, st, n);
    } else {
      ReadBlank(env, files, st, n, items, section, scope);
      FoldStep(env, files, st, n, [""] + tail, tail);
      ReadQuiet(env, files, Step(env, files, st, n, ""), n + 1, tail);
    }
  }

  /** Rendered content splits back into its lines. */
  lemma ContentSplits(env: Env, sections: seq<Section>, layout: Layout, included: seq<Entry>)
    requires layout.style == Markdown && AllPrintable(env, sections, included) && HeadQuiet(env, layout.head)
    requires forall l | l in layout.head + layout.tail :: NoBreak(l)
    ensures var lines := DocumentLines(sections, layout, included);
            SplitLines(Content(lines)) == lines
  {
    hide AllPrintable, Body, FinalState;
    var lines := DocumentLines(sections, layout, included);
    BodyUnbroken(env, sections, included, 0);
    assert forall l | l in lines :: NoBreak(l);
    ContentLines(lines);
    assert lines[0] == layout.head[0];
  }

  lemma ContentLines(lines: seq<string>)
    requires lines != [] && (lines[0] == "" || lines[0][0] != '\U{FEFF}')
    requires forall l | l in lines :: NoBreak(l)
    ensures SplitLines(Content(lines)) == lines
  {
    hide ManagedBlock.Lines, ManagedBlock.Flat, ManagedBlock.Canonical;
    var n := |lines| - 1;
    var ls := ManagedBlock.WithEol(lines, "\n");
    ManagedBlock.CanonicalWithEol(lines, "\n");
    ManagedBlock.CanonicalUnique(ls);
    assert lines == lines[..n] + [lines[n]];
    ManagedBlock.JoinAsLines(lines[..n], "\n", lines[n]);
    ManagedBlock.FlatLast(ls, ManagedBlock.WithEol(lines[..n], "\n"), ManagedBlock.RawLine(lines[n], "\n"));
    assert ManagedBlock.Flat(ls) == Content(lines);
    ManagedBlock.FlatHead(ls);
    assert Content(lines)[0] == (lines[0] + "\n")[0];
    assert Texts(ls) == lines;
  }

  lemma Unbroken(s: string)
    requires NoTerminator(s)
    ensures NoBreak(s)
  {
  }

  lemma {:induction false} BodyUnbroken(env: Env, sections: seq<Section>, included: seq<Entry>, i: nat)
    requires AllPrintable(env, sections, included)
    ensures forall l | l in Body(sections, Markdown, included, i) :: NoBreak(l)
    decreases |sections| - i
  {
    hide SectionBlock, Shown, AllPrintable, BodyOk, NoBreak;
    if i < |sections| {
      BodyUnbroken(env, sections, included, i + 1);
      ShownOk(env, sections, included, i);
      SectionUnbroken(env, sections, Shown(included, i), i);
    }
  }

  lemma SectionUnbroken(env: Env, sections: seq<Section>, es: seq<Entry>, i: nat)
    requires BodyOk(env, sections, es, i)
    ensures forall l | l in SectionBlock(Markdown, sections[i].heading, es) :: NoBreak(l)
  {
    hide NoTerminator, Title, ItemLine, Sort, LexLe, GroupNames, InGroup, GroupBlocks;
    if es != [] {
      var h := sections[i].heading;
      VisibleConcat("## ", h);
      MarksVisible();
      Unbroken("## " + h);
      MembersOk(env, sections, es, i, "");
      ItemsUnbroken(env, sections, InGroup(es, ""), i);
      SortedGroups(es);
      GroupsUnbroken(env, sections, es, Sort(LexLe, GroupNames(es)), i);
    }
  }

  lemma MarksVisible()
    ensures NoTerminator("## ") && NoTerminator("### ") && NoTerminator("- ") && NoTerminator("")
  {
  }

  lemma ItemsUnbroken(env: Env, sections: seq<Section>, es: seq<Entry>, i: nat)
    requires BodyOk(env, sections, es, i)
    ensures forall l | l in ItemLines(es) :: NoBreak(l)
  {
    hide ItemBody, NoTerminator;
    forall k | 0 <= k < |es|
      ensures NoBreak(ItemLine(es[k]))
    {
      assert es[k] in es;
      BodyShape(es[k]);
      VisibleConcat("- ", ItemBody(es[k]));
      MarksVisible();
      Unbroken(ItemLine(es[k]));
    }
  }

  lemma {:induction false} GroupsUnbroken(env: Env, sections: seq<Section>, es: seq<Entry>, groups: seq<string>, i: nat)
    requires BodyOk(env, sections, es, i) && "" !in groups
    ensures forall l | l in GroupBlocks(Markdown, es, groups) :: NoBreak(l)
  {
    hide BodyOk, InGroup, NoBreak, GroupBlock;
    if groups != [] {
      GroupsUnbroken(env, sections, es, groups[1..], i);
      MembersOk(env, sections, es, i, groups[0]);
      assert groups[0] in groups;
      GroupUnbroken(env, sections, InGroup(es, groups[0]), groups[0], i);
    }
  }

  lemma GroupUnbroken(env: Env, sections: seq<Section>, members: seq<Entry>, group: string, i: nat)
    requires BodyOk(env, sections, members, i) && group != "" && forall e | e in members :: e.group == group
    ensures forall l | l in GroupBlock(Markdown, members) :: NoBreak(l)
  {
    hide NoTerminator, Printable, Title, IsGlob;
    ItemsUnbroken(env, sections, members, i);
    if members != [] {
      var paths := members[0].paths;
      assert members[0] in members && paths != [];
      ScopeExact(paths);
      assert "### " + ScopeTitle(paths) == "###" + " " + ScopeTitle(paths);
      VisibleConcat("### ", ScopeTitle(paths));
      MarksVisible();
      Unbroken("### " + ScopeTitle(paths));
    }
  }

  // ---------------------------------------------------------------------
  // Spots are the included entries, each on its own line
  // ---------------------------------------------------------------------

  function Entries(spots: seq<Spot>): seq<Entry> {
    seq(|spots|, i requires 0 <= i < |spots| => spots[i].entry)
  }

  function IsIt(e: Entry): Entry -> nat { (x: Entry) => if x == e then 1 else 0 }

  lemma {:induction false} CountTotal(e: Entry, es: seq<Entry>)
    ensures multiset(es)[e] == Total(IsIt(e), es)
  {
    if es != [] {
      CountTotal(e, es[1..]);
      TailContents(es);
    }
  }

  lemma EntriesConcat(a: seq<Spot>, b: seq<Spot>)
    ensures Entries(a + b) == Entries(a) + Entries(b)
  {
  }

  lemma {:induction false} GroupSpotsCount(e: Entry, es: seq<Entry>, groups: seq<string>, n: nat)
    ensures multiset(Entries(GroupSpots(es, groups, n)))[e] == GroupTotals(IsIt(e), es, groups)
    decreases |groups|
  {
    hide InGroup;
    if groups != [] {
      var members := InGroup(es, groups[0]);
      CountTotal(e, members);
      if members == [] {
        GroupSpotsCount(e, es, groups[1..], n);
      } else {
        GroupSpotsCount(e, es, groups[1..], n + 2 + |members|);
        assert Entries(Spots(members, n + 2)) == members;
        EntriesConcat(Spots(members, n + 2), GroupSpots(es, groups[1..], n + 2 + |members|));
      }
    }
  }

  lemma SectionSpotsCount(e: Entry, es: seq<Entry>, n: nat)
    ensures multiset(Entries(SectionSpots(es, n)))[e] == multiset(es)[e]
  {
    hide GroupSpots, Sort, LexLe, GroupNames, InGroup, Total;
    if es != [] {
      var groups, loose := Sort(LexLe, GroupNames(es)), InGroup(es, "");
      GroupNamesExact(es);
      SortContents(LexLe, GroupNames(es));
      SameMembers(groups, GroupNames(es));
      NoDuplicatesPermuted(groups, GroupNames(es));
      GroupSpotsCount(e, es, groups, n + 2 + |loose|);
      GroupsPartition(IsIt(e), es, groups);
      CountTotal(e, es);
      CountTotal(e, loose);
      assert Entries(Spots(loose, n + 2)) == loose;
      EntriesConcat(Spots(loose, n + 2), GroupSpots(es, groups, n + 2 + |loose|));
    }
  }

  lemma {:induction false} OfSectionCount(e: Entry, es: seq<Entry>, i: nat)
    ensures multiset(OfSection(es, i))[e] == if e.section == i then multiset(es)[e] else 0
  {
    if es != [] {
      LastContents(es);
      OfSectionCount(e, es[..|es| - 1], i);
    }
  }

  lemma {:induction false} BodySpotsCount(e: Entry, sections: seq<Section>, included: seq<Entry>, i: nat, n: nat)
    requires e.section < |sections|
    ensures multiset(Entries(BodySpots(sections, included, i, n)))[e] ==
            if e.section >= i then multiset(included)[e] else 0
    decreases |sections| - i
  {
    hide SectionSpots, SectionBlock, OfSection, Sort;
    if i < |sections| {
      var es := Shown(included, i);
      var m := n + |SectionBlock(Markdown, sections[i].heading, es)|;
      BodySpotsCount(e, sections, included, i + 1, m);
      SectionSpotsCount(e, es, n);
      SortContents(ByOrder(), OfSection(included, i));
      OfSectionCount(e, included, i);
      EntriesConcat(SectionSpots(es, n), BodySpots(sections, included, i + 1, m));
    }
  }

  /** Each spot's line, counting from `n`, is its entry's. */
  predicate OnLines(spots: seq<Spot>, lines: seq<string>, n: nat) {
    forall s | s in spots :: n <= s.line < n + |lines| && lines[s.line - n] == ItemLine(s.entry)
  }

  lemma OnLinesConcat(a: seq<Spot>, b: seq<Spot>, x: seq<string>, y: seq<string>, n: nat)
    requires OnLines(a, x, n) && OnLines(b, y, n + |x|)
    ensures OnLines(a + b, x + y, n)
  {
    hide ItemLine;
  }

  lemma SpotsOnLines(es: seq<Entry>, opening: seq<string>, n: nat)
    ensures OnLines(Spots(es, n + |opening|), opening + ItemLines(es), n)
  {
    hide ItemLine;
  }

  lemma {:induction false} GroupSpotsOnLines(es: seq<Entry>, groups: seq<string>, n: nat)
    ensures OnLines(GroupSpots(es, groups, n), GroupBlocks(Markdown, es, groups), n)
    decreases |groups|
  {
    hide InGroup, OnLines, ItemLine, ScopeHeading;
    if groups == [] {
      NoneOnLines([], n);
    } else {
      var members := InGroup(es, groups[0]);
      var rest := GroupBlocks(Markdown, es, groups[1..]);
      if members == [] {
        NoBlock(rest);
        GroupSpotsOnLines(es, groups[1..], n);
      } else {
        GroupSpotsOnLines(es, groups[1..], n + 2 + |members|);
        SpotsOnLines(members, ["", ScopeHeading(Markdown, members[0].paths)], n);
        OnLinesConcat(Spots(members, n + 2), GroupSpots(es, groups[1..], n + 2 + |members|),
                      GroupBlock(Markdown, members), rest, n);
      }
    }
  }

  lemma NoneOnLines(lines: seq<string>, n: nat)
    ensures OnLines([], lines, n)
  {
  }

  lemma SectionSpotsOnLines(heading: string, es: seq<Entry>, n: nat)
    ensures OnLines(SectionSpots(es, n), SectionBlock(Markdown, heading, es), n)
  {
    hide InGroup, OnLines, ItemLine, GroupBlocks, GroupSpots, Sort, LexLe, GroupNames;
    if es == [] {
      NoneOnLines([], n);
    } else {
      var loose, groups := InGroup(es, ""), Sort(LexLe, GroupNames(es));
      SpotsOnLines(loose, SectionLines(Markdown, heading), n);
      GroupSpotsOnLines(es, groups, n + 2 + |loose|);
      OnLinesConcat(Spots(loose, n + 2), GroupSpots(es, groups, n + 2 + |loose|),
                    SectionLines(Markdown, heading) + ItemLines(loose), GroupBlocks(Markdown, es, groups), n);
    }
  }

  lemma {:induction false} BodySpotsOnLines(sections: seq<Section>, included: seq<Entry>, i: nat, n: nat)
    ensures OnLines(BodySpots(sections, included, i, n), Body(sections, Markdown, included, i), n)
    decreases |sections| - i
  {
    hide OnLines, SectionBlock, SectionSpots, Shown;
    if i >= |sections| {
      NoneOnLines([], n);
    } else {
      var es := Shown(included, i);
      var block := SectionBlock(Markdown, sections[i].heading, es);
      SectionSpotsOnLines(sections[i].heading, es, n);
      BodySpotsOnLines(sections, included, i + 1, n + |block|);
      OnLinesConcat(SectionSpots(es, n), BodySpots(sections, included, i + 1, n + |block|),
                    block, Body(sections, Markdown, included, i + 1), n);
    }
  }

  /** The spots of a document hold each included entry as often as it was included, and each
      stands on the line that prints it. */
  lemma SpotsExact(sections: seq<Section>, layout: Layout, included: seq<Entry>)
    requires layout.style == Markdown && forall e | e in included :: e.section < |sections|
    ensures var spots := BodySpots(sections, included, 0, |layout.head| + 1);
            && multiset(Entries(spots)) == multiset(included)
            && OnLines(spots, DocumentLines(sections, layout, included)[|layout.head|..], |layout.head| + 1)
  {
    hide BodySpots, Body, Entries, ItemLine;
    var n := |layout.head| + 1;
    var spots := BodySpots(sections, included, 0, n);
    var body, tail := Body(sections, Markdown, included, 0), TailLines(layout.tail);
    BodySectionsBound(sections, included, 0, n);
    forall e: Entry
      ensures multiset(Entries(spots))[e] == multiset(included)[e]
    {
      if e.section < |sections| {
        BodySpotsCount(e, sections, included, 0, n);
      } else {
        assert e !in included && e !in Entries(spots);
      }
    }
    BodySpotsOnLines(sections, included, 0, n);
    NoneOnLines(tail, n + |body|);
    OnLinesConcat(spots, [], body, tail, n);
    assert spots + [] == spots;
    assert DocumentLines(sections, layout, included)[|layout.head|..] == body + tail;
  }

  lemma {:induction false} BodySectionsBound(sections: seq<Section>, included: seq<Entry>, i: nat, n: nat)
    ensures forall e | e in Entries(BodySpots(sections, included, i, n)) :: e.section < |sections|
    decreases |sections| - i
  {
    hide SectionSpots, SectionBlock, OfSection, Sort;
    if i < |sections| {
      var es := Shown(included, i);
      var m := n + |SectionBlock(Markdown, sections[i].heading, es)|;
      BodySectionsBound(sections, included, i + 1, m);
      EntriesConcat(SectionSpots(es, n), BodySpots(sections, included, i + 1, m));
      OfSectionMembers(included, i);
      SortContents(ByOrder(), OfSection(included, i));
      SameMembers(es, OfSection(included, i));
      forall e | e in Entries(SectionSpots(es, n))
        ensures e in es
      {
        SectionSpotsCount(e, es, n);
        assert e in multiset(Entries(SectionSpots(es, n)));
        assert e in multiset(es);
      }
    }
  }
}
