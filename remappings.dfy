/**
 * Foundry remappings: reading them from a directory's `remappings.txt` and
 * `foundry.toml`, and rewriting an import path with the first one that matches.
 */
module Remappings {
  import opened Wrappers
  import opened Text
  import opened Vfs

  /** Every occurrence of `prefix` in an import path becomes `target`. */
  datatype Remapping = Remapping(prefix: string, target: string)

  const RemappingsFile: string := "remappings.txt"
  const FoundryConfigFile: string := "foundry.toml"

  /** With exactly one `=` in `s`, the two sides of it are the two parts of the split. */
  lemma SplitAtOnlyEquals(s: string, i: int)
    requires |Split(s, {'='})| == 2 && 0 <= i < |s| && s[i] == '='
    ensures Split(s, {'='})[0] == s[..i] && Split(s, {'='})[1] == s[i + 1..]
  {
    var parts := Split(s, {'='});
    JoinSplit(s, '=');
    assert s == parts[0] + ['='] + parts[1];
    assert NoneIn(parts[0], {'='}) && NoneIn(parts[1], {'='});
    assert forall k :: 0 <= k < |parts[0]| ==> s[k] == parts[0][k];
    assert forall k :: 0 <= k < |parts[1]| ==> s[|parts[0]| + 1 + k] == parts[1][k];
    assert i == |parts[0]|;
  }

  /**
   * The entry one `prefix=target` text contributes: it must split on `=` into
   * exactly two parts, and both halves are trimmed (empty halves are kept).
   */
  function PairOf(s: string): (r: Option<Remapping>)
    ensures r.Some? <==> CountIn(s, {'='}) == 1
  {
    var parts := Split(s, {'='});
    if |parts| == 2 then Some(Remapping(Trim(parts[0], Whitespace), Trim(parts[1], Whitespace)))
    else None
  }

  /** A text with a single `=` at `i` maps the trimmed text before `i` to the trimmed text after it. */
  lemma PairOfSplitsAtEquals(s: string, i: int)
    requires 0 <= i < |s| && s[i] == '=' && CountIn(s, {'='}) == 1
    ensures PairOf(s) == Some(Remapping(Trim(s[..i], Whitespace), Trim(s[i + 1..], Whitespace)))
  {
    SplitAtOnlyEquals(s, i);
  }

  /**
   * The entry one `foundry.toml` array element contributes: only a text node
   * counts, and it is stripped of surrounding `"` before being split.
   */
  function TomlEntry(v: TomlValue): (r: Option<Remapping>)
    ensures v.TomlOther? ==> r.None?
    ensures v.TomlText? ==> r == PairOf(Trim(v.text, {'"'}))
  {
    match v
    case TomlText(t) => PairOf(Trim(t, {'"'}))
    case TomlOther => None
  }

  /** The entries `f` makes of `xs`, in the order of `xs` (a `mapNotNull`). */
  function Collect<T>(xs: seq<T>, f: T -> Option<Remapping>): (rs: seq<Remapping>)
    ensures |rs| <= |xs|
  {
    if xs == [] then []
    else
      match f(xs[0])
      case Some(r) => [r] + Collect(xs[1..], f)
      case None => Collect(xs[1..], f)
  }

  /**
   * Collecting neither invents nor loses entries: every collected entry is
   * what `f` makes of some element, and every entry `f` makes is collected.
   */
  lemma {:induction false} CollectMembers<T>(xs: seq<T>, f: T -> Option<Remapping>)
    ensures forall r :: r in Collect(xs, f) ==> exists k :: 0 <= k < |xs| && f(xs[k]) == Some(r)
    ensures forall k :: 0 <= k < |xs| && f(xs[k]).Some? ==> f(xs[k]).value in Collect(xs, f)
  {
    if xs != [] {
      CollectMembers(xs[1..], f);
      assert forall k :: 1 <= k < |xs| ==> xs[k] == xs[1..][k - 1];
    }
  }

  /** Collecting is done element by element, so the order of the input is kept. */
  lemma {:induction false} CollectAppend<T>(a: seq<T>, b: seq<T>, f: T -> Option<Remapping>)
    ensures Collect(a + b, f) == Collect(a, f) + Collect(b, f)
  {
    if a != [] {
      assert (a + b)[1..] == a[1..] + b;
      CollectAppend(a[1..], b, f);
    } else {
      assert a + b == b;
    }
  }

  /** Collecting one more element appends what that element contributes. */
  lemma CollectStep<T>(xs: seq<T>, i: nat, f: T -> Option<Remapping>)
    requires i < |xs|
    ensures Collect(xs[..i + 1], f) == Collect(xs[..i], f) + (if f(xs[i]).Some? then [f(xs[i]).value] else [])
  {
    CollectAppend(xs[..i], [xs[i]], f);
    assert xs[..i + 1] == xs[..i] + [xs[i]];
  }

  /**
   * Empty lines contribute nothing (an empty line has no `=`), so dropping
   * them, as the `[\r\n]+` split does between consecutive line breaks, does
   * not change the remappings a text yields.
   */
  lemma {:induction false} EmptyLinesContributeNothing(parts: seq<string>)
    ensures Collect(NonEmpty(parts), PairOf) == Collect(parts, PairOf)
  {
    if parts != [] {
      EmptyLinesContributeNothing(parts[1..]);
      if parts[0] == [] {
        assert PairOf(parts[0]) == None;
      }
    }
  }

  /** The remappings of a `remappings.txt` text, in file order. */
  function RemappingsFromText(text: string): seq<Remapping> {
    Collect(Lines(text), PairOf)
  }

  /** The remappings of the `profile.default.remappings` entries, in array order. */
  function RemappingsFromToml(values: seq<TomlValue>): seq<Remapping> {
    Collect(values, TomlEntry)
  }

  /** The `remappings.txt` loop: each line with exactly one `=` adds its trimmed pair. */
  method ReadRemappingsTxt(text: string) returns (remappings: seq<Remapping>)
    ensures remappings == RemappingsFromText(text)
  {
    var lines := Lines(text);
    remappings := [];
    var i := 0;
    while i < |lines|
      invariant 0 <= i <= |lines|
      invariant remappings == Collect(lines[..i], PairOf)
    {
      var entry := PairOf(lines[i]);
      CollectStep(lines, i, PairOf);
      if entry.Some? {
        remappings := remappings + [entry.value];
      }
      i := i + 1;
    }
    assert lines[..i] == lines;
  }

  /**
   * The remappings of directory `d`'s own `remappings.txt`, if it has one
   * (`findFileByRelativePath` of a single name is the child of that name, see
   * `Vfs.LookupChild`).
   */
  function FileRemappings(host: Host, d: Path): (rs: seq<Remapping>)
    ensures d + [RemappingsFile] !in host.files ==> rs == []
    ensures |rs| <= |Lines(TextOf(host, d + [RemappingsFile]))|
  {
    match Child(host.files, d, RemappingsFile)
    case None => []
    case Some(f) => RemappingsFromText(TextOf(host, f))
  }

  /** The remappings of directory `d`'s own `foundry.toml`; none when it is missing or unreadable. */
  function RemappingsFromFoundryConfigFile(host: Host, d: Path): (rs: seq<Remapping>)
    ensures d + [FoundryConfigFile] !in host.files ==> rs == []
    ensures |rs| <= |TomlRemappingsOf(host, d + [FoundryConfigFile])|
  {
    match Child(host.files, d, FoundryConfigFile)
    case None => []
    case Some(f) => RemappingsFromToml(TomlRemappingsOf(host, f))
  }

  /** The list one level of the Foundry search applies: file entries, then TOML entries. */
  function LevelRemappings(host: Host, d: Path): (rs: seq<Remapping>)
    ensures FileRemappings(host, d) <= rs
    ensures forall k :: |FileRemappings(host, d)| <= k < |rs| ==>
      rs[k] in RemappingsFromFoundryConfigFile(host, d)
  {
    FileRemappings(host, d) + RemappingsFromFoundryConfigFile(host, d)
  }

  /** Builds the list as the source does: `remappings.txt` first, then `+=` the TOML entries. */
  method LoadRemappings(host: Host, d: Path) returns (remappings: seq<Remapping>)
    ensures remappings == LevelRemappings(host, d)
    ensures FileRemappings(host, d) <= remappings
    ensures |remappings| == |FileRemappings(host, d)| + |RemappingsFromFoundryConfigFile(host, d)|
  {
    remappings := [];
    var remappingsTxt := Child(host.files, d, RemappingsFile);
    if remappingsTxt.Some? {
      remappings := ReadRemappingsTxt(TextOf(host, remappingsTxt.value));
    }
    remappings := remappings + RemappingsFromFoundryConfigFile(host, d);
  }

  // ---------------------------------------------------------------------------
  // applying remappings

  /** The index of the first remapping whose prefix occurs anywhere in `path`. */
  function FirstMatch(rs: seq<Remapping>, path: string): (m: Option<nat>)
    ensures m.None? <==> forall k :: 0 <= k < |rs| ==> !Contains(path, rs[k].prefix)
    ensures m.Some? ==> m.value < |rs| && Contains(path, rs[m.value].prefix)
    ensures m.Some? ==> forall k :: 0 <= k < m.value ==> !Contains(path, rs[k].prefix)
  {
    if rs == [] then None
    else if Contains(path, rs[0].prefix) then Some(0)
    else
      assert forall k :: 1 <= k < |rs| ==> rs[k] == rs[1..][k - 1];
      match FirstMatch(rs[1..], path)
      case None => None
      case Some(i) => Some(i + 1)
  }

  /**
   * The path after remapping: unchanged when no prefix occurs in it;
   * otherwise every occurrence of the first occurring prefix is replaced by
   * that entry's target.
   */
  function Remapped(rs: seq<Remapping>, path: string): (out: string)
    ensures (forall k :: 0 <= k < |rs| ==> !Contains(path, rs[k].prefix)) ==> out == path
    ensures forall i ::
      (0 <= i < |rs| && Contains(path, rs[i].prefix) && (forall k :: 0 <= k < i ==> !Contains(path, rs[k].prefix)))
      ==> out == ReplaceAll(path, rs[i].prefix, rs[i].target)
  {
    match FirstMatch(rs, path)
    case None => path
    case Some(i) =>
      assert forall j ::
        (0 <= j < |rs| && Contains(path, rs[j].prefix) && (forall k :: 0 <= k < j ==> !Contains(path, rs[k].prefix)))
        ==> j == i;
      ReplaceAll(path, rs[i].prefix, rs[i].target)
  }

  /** The `forEach` with its early return, proved to compute `Remapped`. */
  method ApplyRemappings(remappings: seq<Remapping>, path: string) returns (output: string)
    ensures output == Remapped(remappings, path)
  {
    output := path;
    var i := 0;
    while i < |remappings|
      invariant 0 <= i <= |remappings|
      invariant output == path
      invariant forall k :: 0 <= k < i ==> !Contains(path, remappings[k].prefix)
    {
      var (prefix, target) := (remappings[i].prefix, remappings[i].target);
      if Contains(path, prefix) {
        output := ReplaceAll(path, prefix, target);
        return;
      }
      i := i + 1;
    }
  }

  /**
   * The usual case: the first matching prefix starts the path and occurs
   * nowhere else in it, so the path becomes the target followed by the rest.
   */
  lemma RemappedAnchoredPrefix(rs: seq<Remapping>, i: nat, rest: string)
    requires i < |rs| && rs[i].prefix != [] && !Contains(rest, rs[i].prefix)
    requires forall k :: 0 <= k < i ==> !Contains(rs[i].prefix + rest, rs[k].prefix)
    ensures Remapped(rs, rs[i].prefix + rest) == rs[i].target + rest
  {
    var path := rs[i].prefix + rest;
    assert OccursAt(path, rs[i].prefix, 0);
    LeadingOccurrenceReplaced(rs[i].prefix, rest, rs[i].target);
  }

  /** Once an entry matches, entries appended after the list never matter. */
  lemma RemappedIgnoresLater(rs: seq<Remapping>, later: seq<Remapping>, path: string)
    requires FirstMatch(rs, path).Some?
    ensures Remapped(rs + later, path) == Remapped(rs, path)
  {
    var i := FirstMatch(rs, path).value;
    assert (rs + later)[i] == rs[i];
    assert forall k :: 0 <= k < i ==> (rs + later)[k] == rs[k];
  }

  /** Entries that do not match are passed over: the rest of the list decides. */
  lemma RemappedSkipsUnmatched(rs: seq<Remapping>, later: seq<Remapping>, path: string)
    requires FirstMatch(rs, path).None?
    ensures Remapped(rs + later, path) == Remapped(later, path)
  {
    var all := rs + later;
    assert forall k :: 0 <= k < |later| ==> all[|rs| + k] == later[k];
    assert forall k :: 0 <= k < |rs| ==> all[k] == rs[k];
    match FirstMatch(later, path)
    case None =>
      assert forall k :: 0 <= k < |all| ==> !Contains(path, all[k].prefix) by {
        forall k | 0 <= k < |all| ensures !Contains(path, all[k].prefix) {
          if k >= |rs| { assert all[k] == later[k - |rs|]; }
        }
      }
    case Some(j) =>
      assert forall k :: 0 <= k < |rs| + j ==> !Contains(path, all[k].prefix) by {
        forall k | 0 <= k < |rs| + j ensures !Contains(path, all[k].prefix) {
          if k >= |rs| { assert all[k] == later[k - |rs|]; }
        }
      }
      assert all[|rs| + j] == later[j];
  }

  /**
   * Merge order: an entry of the directory's `remappings.txt` that matches
   * wins over every `foundry.toml` entry; only when none matches do the TOML
   * entries get a say.
   */
  lemma FileRemappingsTakePrecedence(host: Host, d: Path, path: string)
    ensures FirstMatch(FileRemappings(host, d), path).Some? ==>
      Remapped(LevelRemappings(host, d), path) == Remapped(FileRemappings(host, d), path)
    ensures FirstMatch(FileRemappings(host, d), path).None? ==>
      Remapped(LevelRemappings(host, d), path) == Remapped(RemappingsFromFoundryConfigFile(host, d), path)
  {
    if FirstMatch(FileRemappings(host, d), path).Some? {
      RemappedIgnoresLater(FileRemappings(host, d), RemappingsFromFoundryConfigFile(host, d), path);
    } else {
      RemappedSkipsUnmatched(FileRemappings(host, d), RemappingsFromFoundryConfigFile(host, d), path);
    }
  }

  /**
   * The source keeps entries with an empty prefix (a line `=x`), and every
   * path contains the empty string: such an entry matches every path, puts its
   * target around every character, and shadows every entry after it.
   */
  lemma EmptyPrefixShadowsLater(rs: seq<Remapping>, i: nat, path: string)
    requires i < |rs| && rs[i].prefix == []
    requires forall k :: 0 <= k < i ==> !Contains(path, rs[k].prefix)
    ensures Remapped(rs, path) == Interleave(path, rs[i].target)
  {
    assert OccursAt(path, [], 0);
    assert Contains(path, rs[i].prefix);
  }
}
