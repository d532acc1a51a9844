/** The values the compiler passes around: packages/compiler/src/model.ts and select.ts. */
module Model {
  import opened Text

  datatype Marker = BeingVerified | InConflict

  function MarkerText(m: Marker): string {
    match m
    case BeingVerified => "Being verified"
    case InConflict => "In conflict"
  }

  /** One line of a compiled file. `group` is the scope key, `""` when unscoped. */
  datatype Entry = Entry(section: nat, group: string, paths: seq<string>, order: nat, rank: nat,
                         ref: Option<string>, refs: seq<string>, text: string, marker: Option<Marker>)

  datatype Section = Section(key: string, heading: string)

  datatype Selection = Selection(sections: seq<Section>, entries: seq<Entry>)

  function ScopeKey(paths: seq<string>): string { Join(paths, ",") }

  /** The characters validation allows in a glob: no comma, space or backtick among them. */
  predicate GlobChar(c: char) {
    || 'A' <= c <= 'Z' || 'a' <= c <= 'z' || '0' <= c <= '9'
    || c in {'.', '_', '-', '/', '*', '?', '[', ']', '!', '@', '+', '~'}
  }

  predicate IsGlob(p: string) { p != "" && forall i | 0 <= i < |p| :: GlobChar(p[i]) }

  predicate Globs(paths: seq<string>) { forall p | p in paths :: IsGlob(p) }

  /** A line is grouped by its own scope, or not at all: a file for one scope keeps its lines' paths but no group. */
  predicate EntryOk(e: Entry) { Globs(e.paths) && (e.group == "" || e.group == ScopeKey(e.paths)) }

  predicate OwnScope(e: Entry) { e.group == ScopeKey(e.paths) }

  predicate SelectionOk(sel: Selection) {
    forall e | e in sel.entries :: EntryOk(e) && e.section < |sel.sections|
  }

  /** The globs behind a scope key. */
  function PathsOf(group: string): seq<string> {
    if group == "" then [] else Split(group, ',')
  }

  /** `scopeKey` is injective on validated globs: the key gives the globs back. */
  lemma ScopeKeyInjective(paths: seq<string>)
    requires Globs(paths)
    ensures PathsOf(ScopeKey(paths)) == paths
  {
    if paths != [] {
      assert IsGlob(paths[0]);
      SplitJoin(paths, ',');
    }
  }

  /** The lines of one scope, as a file of their own holds them: ungrouped. */
  function ScopedLines(es: seq<Entry>, group: string): seq<Entry> {
    if es == [] then [] else
    var n := |es| - 1;
    if es[n].group == group then ScopedLines(es[..n], group) + [es[n].(group := "")] else ScopedLines(es[..n], group)
  }

  function ScopedFile(sel: Selection, group: string): Selection { sel.(entries := ScopedLines(sel.entries, group)) }

  /** Taking one scope's lines out and clearing their group keeps a selection composable. Where lines are grouped
      by their own scope, the globs of any of the file's lines are those of all. */
  lemma {:induction false} ScopedFileOk(sel: Selection, group: string)
    requires SelectionOk(sel)
    ensures SelectionOk(ScopedFile(sel, group))
    ensures forall e | e in ScopedFile(sel, group).entries :: e.group == ""
    ensures OwnScopes(sel) ==> forall e | e in ScopedFile(sel, group).entries :: e.paths == PathsOf(group)
    decreases |sel.entries|
  {
    hide ScopeKey, Globs, PathsOf;
    if sel.entries != [] {
      var n := |sel.entries| - 1;
      var e := sel.entries[n];
      assert e in sel.entries;
      ScopeKeyInjective(e.paths);
      ScopedFileOk(sel.(entries := sel.entries[..n]), group);
    }
  }

  predicate OwnScopes(sel: Selection) { forall e | e in sel.entries :: OwnScope(e) }
}
