/**
 * The import-path resolver: from the file that holds an `import` and the
 * literal it imports, the file that literal names. Four strategies are tried
 * in a fixed order and the first hit wins: relative, npm (`node_modules`),
 * EthPM (`installed_contracts`) and Foundry (remappings, then `lib/<lib>/src`).
 */
module ImportResolver {
  import opened Wrappers
  import opened Text
  import opened Vfs
  import opened Remappings

  /**
   * The path inside an import literal: its first and last characters (the
   * quotes) dropped; nothing for a literal shorter than two characters.
   */
  function ImportPathOf(importText: string): (path: Option<string>)
    ensures path.None? <==> |importText| < 2
    ensures path.Some? ==> [importText[0]] + path.value + [importText[|importText| - 1]] == importText
  {
    if |importText| < 2 then None else Some(importText[1..|importText| - 1])
  }

  /** A literal between two quote characters gives back exactly what is between them. */
  lemma ImportPathOfQuoted(opening: char, path: string, closing: char)
    ensures ImportPathOf([opening] + path + [closing]) == Some(path)
  {
    var text := [opening] + path + [closing];
    assert text[1..|text| - 1] == path;
  }

  // ---------------------------------------------------------------------------
  // first answer along a finite sequence

  /** `k` is the first position of `xs` that holds an answer. */
  predicate FirstSomeAt<R>(xs: seq<Option<R>>, k: int) {
    0 <= k < |xs| && xs[k].Some? && forall j :: 0 <= j < k ==> xs[j].None?
  }

  /** The first answer in `xs`, if any: the short-circuit of a chain of `if (x != null) return x`. */
  function FirstSome<R>(xs: seq<Option<R>>): (r: Option<R>)
    ensures r.None? <==> forall k :: 0 <= k < |xs| ==> xs[k].None?
    ensures r.Some? ==> exists k :: FirstSomeAt(xs, k)
    ensures forall k :: FirstSomeAt(xs, k) ==> r == xs[k]
  {
    if xs == [] then None
    else if xs[0].Some? then
      assert FirstSomeAt(xs, 0);
      xs[0]
    else
      var rest := FirstSome(xs[1..]);
      assert forall k :: 1 <= k < |xs| ==> xs[k] == xs[1..][k - 1];
      assert forall k {:trigger FirstSomeAt(xs, k)} ::
        FirstSomeAt(xs, k) ==> 1 <= k && FirstSomeAt(xs[1..], k - 1);
      assert forall k {:trigger FirstSomeAt(xs[1..], k)} ::
        FirstSomeAt(xs[1..], k) ==> FirstSomeAt(xs, k + 1);
      rest
  }

  /**
   * The upward search of `findNpmImportFile`, `findEthPMImportFile` and
   * `findFoundryImportFile`: probe `file`, and when that finds nothing go on
   * from `file.parent`, until the root, which has no parent. The answer is the
   * hit at the nearest ancestor (`file[..n]` with the largest `n`).
   */
  function SearchUp(file: Path, probe: Path -> Option<Path>): (r: Option<Path>)
    ensures r.None? <==> forall n :: 0 <= n <= |file| ==> probe(file[..n]).None?
    ensures forall n ::
      (0 <= n <= |file| && probe(file[..n]).Some? &&
       forall m :: n < m <= |file| ==> probe(file[..m]).None?)
      ==> r == probe(file[..n])
    decreases |file|
  {
    assert file[..|file|] == file;
    var test := probe(file);
    if test.Some? then test
    else if file != [] then
      ParentPrefixes(file);
      SearchUp(Parent(file), probe)
    else None
  }

  // ---------------------------------------------------------------------------
  // the four strategies

  /** `file.findFileByRelativePath("../" + path)`: the path taken from the file's own directory. */
  function RelativeProbe(host: Host, file: Path, path: string): Option<Path> {
    Lookup(host.files, file, "../" + path)
  }

  /** `d/node_modules/<path>`. */
  function NpmProbe(host: Host, d: Path, path: string): Option<Path> {
    Lookup(host.files, d, "node_modules/" + path)
  }

  /** The npm search: the nearest ancestor of `file` (itself included) with `node_modules/<path>`. */
  function FindNpmImportFile(host: Host, file: Path, path: string): (r: Option<Path>)
    ensures r.None? <==> forall n :: 0 <= n <= |file| ==> NpmProbe(host, file[..n], path).None?
    ensures forall n ::
      (0 <= n <= |file| && NpmProbe(host, file[..n], path).Some? &&
       forall m :: n < m <= |file| ==> NpmProbe(host, file[..m], path).None?)
      ==> r == NpmProbe(host, file[..n], path)
  {
    SearchUp(file, d => NpmProbe(host, d, path))
  }

  /** EthPM keeps a package's sources under `contracts/`: the first `/` becomes `/contracts/`. */
  function EthPMRewrite(path: string): (r: string)
    ensures NoneIn(path, {'/'}) ==> r == path
    ensures forall i :: 0 <= i < |path| && path[i] == '/' && NoneIn(path[..i], {'/'}) ==>
      r == path[..i] + "/contracts/" + path[i + 1..]
  {
    var r := ReplaceFirst(path, "/", "/contracts/");
    assert NoneIn(path, {'/'}) ==> r == path by {
      if NoneIn(path, {'/'}) {
        ReplaceFirstAbsentChar(path, '/', "/contracts/");
      }
    }
    assert forall i :: 0 <= i < |path| && path[i] == '/' && NoneIn(path[..i], {'/'}) ==>
      r == path[..i] + "/contracts/" + path[i + 1..] by {
      forall i | 0 <= i < |path| && path[i] == '/' && NoneIn(path[..i], {'/'})
        ensures r == path[..i] + "/contracts/" + path[i + 1..]
      {
        ReplaceFirstChar(path, '/', "/contracts/", i);
      }
    }
    r
  }

  /** `d/installed_contracts/<rewritten path>`. */
  function EthPMProbe(host: Host, d: Path, path: string): Option<Path> {
    Lookup(host.files, d, "installed_contracts/" + EthPMRewrite(path))
  }

  /** The EthPM search: the nearest ancestor of `file` with the rewritten path under `installed_contracts/`. */
  function FindEthPMImportFile(host: Host, file: Path, path: string): (r: Option<Path>)
    ensures r.None? <==> forall n :: 0 <= n <= |file| ==> EthPMProbe(host, file[..n], path).None?
    ensures forall n ::
      (0 <= n <= |file| && EthPMProbe(host, file[..n], path).Some? &&
       forall m :: n < m <= |file| ==> EthPMProbe(host, file[..m], path).None?)
      ==> r == EthPMProbe(host, file[..n], path)
  {
    SearchUp(file, d => EthPMProbe(host, d, path))
  }

  /**
   * The names of a path as `Paths.get(path)` counts them: split on `/`, empty
   * names dropped. `Paths.get("")` has one empty name where this has none;
   * both are fewer than two, the only count the fallback tests.
   */
  function NameSegments(path: string): (names: seq<string>)
    ensures forall k :: 0 <= k < |names| ==> names[k] != [] && NoneIn(names[k], {'/'})
  {
    var parts := Split(path, {'/'});
    var names := NonEmpty(parts);
    assert forall k :: 0 <= k < |names| ==> names[k] in names && names[k] in parts;
    names
  }

  /**
   * Foundry's default library layout, `<lib>/<rest>` at `lib/<lib>/src/<rest>`,
   * probed from `d`; nothing for a path with fewer than two names.
   */
  function FoundryDefaultFallback(host: Host, d: Path, path: string): (r: Option<Path>)
    ensures |NameSegments(path)| < 2 ==> r.None?
  {
    var names := NameSegments(path);
    if |names| < 2 then None
    else Lookup(host.files, d, "lib/" + names[0] + "/src/" + Join(names[1..], '/'))
  }

  /** `d/<path after d's own remappings>`. */
  function RemappedProbe(host: Host, d: Path, path: string): Option<Path> {
    Lookup(host.files, d, Remapped(LevelRemappings(host, d), path))
  }

  /**
   * One level of the Foundry search: the remapped path wins; otherwise the
   * default layout, computed from the path as imported (not as remapped).
   */
  function FoundryLevel(host: Host, d: Path, path: string): (r: Option<Path>)
    ensures RemappedProbe(host, d, path).Some? ==> r == RemappedProbe(host, d, path)
    ensures RemappedProbe(host, d, path).None? ==> r == FoundryDefaultFallback(host, d, path)
  {
    var remapped := RemappedProbe(host, d, path);
    if remapped.Some? then remapped else FoundryDefaultFallback(host, d, path)
  }

  /**
   * Each level reads only its own directory's two config files: hosts with
   * the same files that agree on `d/remappings.txt` and `d/foundry.toml`
   * give the same answer at `d`, whatever other directories' configs say.
   */
  lemma FoundryLevelReadsOwnConfig(h1: Host, h2: Host, d: Path, path: string)
    requires h1.files == h2.files
    requires TextOf(h1, d + [RemappingsFile]) == TextOf(h2, d + [RemappingsFile])
    requires TomlRemappingsOf(h1, d + [FoundryConfigFile]) == TomlRemappingsOf(h2, d + [FoundryConfigFile])
    ensures FoundryLevel(h1, d, path) == FoundryLevel(h2, d, path)
  {
    assert LevelRemappings(h1, d) == LevelRemappings(h2, d);
  }

  /** One level of the Foundry search, as a probe of directories. */
  function FoundryProbe(host: Host, path: string): Path -> Option<Path> {
    d => FoundryLevel(host, d, path)
  }

  /** The Foundry search: the nearest ancestor of `file` where a level finds the import. */
  function FindFoundryImportFile(host: Host, file: Path, path: string): (r: Option<Path>)
    ensures r.None? <==> forall n :: 0 <= n <= |file| ==> FoundryLevel(host, file[..n], path).None?
    ensures forall n ::
      (0 <= n <= |file| && FoundryLevel(host, file[..n], path).Some? &&
       forall m :: n < m <= |file| ==> FoundryLevel(host, file[..m], path).None?)
      ==> r == FoundryLevel(host, file[..n], path)
  {
    SearchUp(file, FoundryProbe(host, path))
  }

  /** `findImportFile`: relative, then npm, then EthPM, then Foundry. */
  function FindImportFile(host: Host, file: Path, path: string): (r: Option<Path>)
    ensures r.Some? ==>
      r == RelativeProbe(host, file, path) || r == FindNpmImportFile(host, file, path) ||
      r == FindEthPMImportFile(host, file, path) || r == FindFoundryImportFile(host, file, path)
    ensures RelativeProbe(host, file, path).Some? ==> r == RelativeProbe(host, file, path)
  {
    var direct := RelativeProbe(host, file, path);
    if direct.Some? then direct
    else
      var npm := FindNpmImportFile(host, file, path);
      if npm.Some? then npm
      else
        var ethPm := FindEthPMImportFile(host, file, path);
        if ethPm.Some? then ethPm
        else FindFoundryImportFile(host, file, path)
  }

  /** `singleResolve`: strip the literal, then resolve. */
  function SingleResolve(host: Host, file: Path, importText: string): (r: Option<Path>)
    ensures |importText| < 2 ==> r.None?
    ensures |importText| >= 2 ==> r == FindImportFile(host, file, importText[1..|importText| - 1])
  {
    match ImportPathOf(importText)
    case None => None
    case Some(path) => FindImportFile(host, file, path)
  }

  // ---------------------------------------------------------------------------
  // what each probe looks for, for an import path made of plain names

  /** `n1/.../nk` from `file` is looked for in the file's own directory. */
  lemma RelativeProbeFromDirectory(host: Host, file: Path, names: seq<string>)
    requires file != [] && names != [] && AllPlain(names)
    ensures RelativeProbe(host, file, Join(names, '/')) ==
      if AllExist(host.files, Parent(file), names) then Some(Parent(file) + names) else None
  {
    JoinAppend([".."], names, '/');
    assert Join([".."], '/') == "..";
    assert Join([".."] + names, '/') == "../" + Join(names, '/');
    LookupFromParent(host.files, file, names);
  }

  /** At `d`, `n1/.../nk` is looked for as `d/node_modules/n1/.../nk`. */
  lemma NpmProbeLooksInNodeModules(host: Host, d: Path, names: seq<string>)
    requires names != [] && AllPlain(names)
    ensures NpmProbe(host, d, Join(names, '/')) ==
      var target := ["node_modules"] + names;
      if AllExist(host.files, d, target) then Some(d + target) else None
  {
    LookupNodeModules(host.files, d, names);
  }

  lemma LookupNodeModules(files: set<Path>, d: Path, names: seq<string>)
    requires names != [] && AllPlain(names)
    ensures Lookup(files, d, "node_modules/" + Join(names, '/')) ==
      var target := ["node_modules"] + names;
      if AllExist(files, d, target) then Some(d + target) else None
  {
    var target := ["node_modules"] + names;
    JoinCons("node_modules", names, '/');
    assert Join(target, '/') == "node_modules/" + Join(names, '/');
    assert AllPlain(target) by {
      assert forall k :: 1 <= k < |target| ==> target[k] == names[k - 1];
    }
    LookupPlain(files, d, target);
  }

  /** The EthPM rewrite of `head/tail`, where `head` has no `/`, is `head/contracts/tail`. */
  lemma EthPMRewriteAfterHead(head: string, tail: string)
    requires NoneIn(head, {'/'})
    ensures EthPMRewrite(head + "/" + tail) == head + "/contracts/" + tail
  {
    var path := head + "/" + tail;
    var i := |head|;
    assert path[i] == '/' && path[..i] == head && path[i + 1..] == tail;
  }

  /** The EthPM rewrite of `n1/n2/.../nk` is `n1/contracts/n2/.../nk`. */
  lemma EthPMRewriteOfPlain(names: seq<string>)
    requires |names| >= 2 && AllPlain(names)
    ensures EthPMRewrite(Join(names, '/')) == Join([names[0], "contracts"] + names[1..], '/')
  {
    assert PlainName(names[0]);
    JoinCons(names[0], names[1..], '/');
    assert names == [names[0]] + names[1..];
    JoinWithContracts(names);
    EthPMRewriteAfterHead(names[0], Join(names[1..], '/'));
  }

  lemma JoinWithContracts(names: seq<string>)
    requires |names| >= 2
    ensures Join([names[0], "contracts"] + names[1..], '/') == names[0] + "/contracts/" + Join(names[1..], '/')
  {
    var head, rest := names[0], names[1..];
    var tail := Join(rest, '/');
    JoinCons("contracts", rest, '/');
    JoinCons(head, ["contracts"] + rest, '/');
    assert [head, "contracts"] + rest == [head] + (["contracts"] + rest);
    calc {
      Join([head, "contracts"] + rest, '/');
      head + "/" + ("contracts" + "/" + tail);
      { assert "/" + ("contracts" + "/" + tail) == "/contracts/" + tail; }
      head + "/contracts/" + tail;
    }
  }

  /**
   * At `d`, `n1/n2/.../nk` is looked for as
   * `d/installed_contracts/n1/contracts/n2/.../nk`.
   */
  lemma EthPMProbeLooksInContracts(host: Host, d: Path, names: seq<string>)
    requires |names| >= 2 && AllPlain(names)
    ensures EthPMProbe(host, d, Join(names, '/')) ==
      var target := ["installed_contracts", names[0], "contracts"] + names[1..];
      if AllExist(host.files, d, target) then Some(d + target) else None
  {
    EthPMRewriteOfPlain(names);
    LookupInstalledContracts(host.files, d, names);
  }

  lemma LookupInstalledContracts(files: set<Path>, d: Path, names: seq<string>)
    requires |names| >= 2 && AllPlain(names)
    ensures Lookup(files, d, "installed_contracts/" + Join([names[0], "contracts"] + names[1..], '/')) ==
      var target := ["installed_contracts", names[0], "contracts"] + names[1..];
      if AllExist(files, d, target) then Some(d + target) else None
  {
    var rewritten := [names[0], "contracts"] + names[1..];
    var target := ["installed_contracts"] + rewritten;
    assert target == ["installed_contracts", names[0], "contracts"] + names[1..];
    JoinCons("installed_contracts", rewritten, '/');
    assert Join(target, '/') == "installed_contracts/" + Join(rewritten, '/');
    assert AllPlain(target) by {
      assert PlainName(names[0]);
      assert forall k :: 3 <= k < |target| ==> target[k] == names[k - 2];
    }
    LookupPlain(files, d, target);
  }

  /** A path of plain names has those names as its `Paths.get` names. */
  lemma NameSegmentsOfPlain(names: seq<string>)
    requires names != [] && AllPlain(names)
    ensures NameSegments(Join(names, '/')) == names
  {
    SplitJoin(names, '/');
  }

  /** The names on either side of a `/` are the names of each side, in order; empty names vanish. */
  lemma NameSegmentsAtSlash(a: string, b: string)
    ensures NameSegments(a + "/" + b) == NameSegments(a) + NameSegments(b)
  {
    SplitAtSeparator(a, '/', b, {'/'});
    NonEmptyAppend(Split(a, {'/'}), Split(b, {'/'}));
  }

  /** A name without `/` is one name; the empty string has none. */
  lemma NameSegmentsOfName(s: string)
    requires NoneIn(s, {'/'})
    ensures NameSegments(s) == if s == [] then [] else [s]
  {
  }

  /** At `d`, the fallback for `n1/n2/.../nk` is `d/lib/n1/src/n2/.../nk`. */
  lemma FallbackLooksInLibSrc(host: Host, d: Path, names: seq<string>)
    requires |names| >= 2 && AllPlain(names)
    ensures FoundryDefaultFallback(host, d, Join(names, '/')) ==
      var target := ["lib", names[0], "src"] + names[1..];
      if AllExist(host.files, d, target) then Some(d + target) else None
  {
    NameSegmentsOfPlain(names);
    LookupLibSrc(host.files, d, names);
  }

  lemma LookupLibSrc(files: set<Path>, d: Path, names: seq<string>)
    requires |names| >= 2 && AllPlain(names)
    ensures Lookup(files, d, "lib/" + names[0] + "/src/" + Join(names[1..], '/')) ==
      var target := ["lib", names[0], "src"] + names[1..];
      if AllExist(files, d, target) then Some(d + target) else None
  {
    var rest := names[1..];
    var target := ["lib"] + ([names[0]] + (["src"] + rest));
    assert target == ["lib", names[0], "src"] + rest;
    JoinCons("src", rest, '/');
    JoinCons(names[0], ["src"] + rest, '/');
    JoinCons("lib", [names[0]] + (["src"] + rest), '/');
    assert Join(target, '/') == "lib/" + names[0] + "/src/" + Join(rest, '/');
    assert AllPlain(target) by {
      assert PlainName(names[0]);
      assert forall k :: 3 <= k < |target| ==> target[k] == names[k - 2];
    }
    LookupPlain(files, d, target);
  }

  // ---------------------------------------------------------------------------
  // the strategy chain as an ordered list

  /** What each strategy finds, in the order `findImportFile` tries them. */
  function StrategyAnswers(host: Host, file: Path, path: string): (answers: seq<Option<Path>>)
    ensures |answers| == 4
  {
    [RelativeProbe(host, file, path), FindNpmImportFile(host, file, path),
     FindEthPMImportFile(host, file, path), FindFoundryImportFile(host, file, path)]
  }

  /**
   * `findImportFile` is the first answer of the four strategies in their
   * fixed order: a strategy's answer is used only when every earlier one found
   * nothing, and nothing is found only when all four find nothing.
   */
  lemma FindImportFileIsFirstStrategyHit(host: Host, file: Path, path: string)
    ensures FindImportFile(host, file, path) == FirstSome(StrategyAnswers(host, file, path))
    ensures FindImportFile(host, file, path).None? <==>
      forall k :: 0 <= k < 4 ==> StrategyAnswers(host, file, path)[k].None?
    ensures forall k :: FirstSomeAt(StrategyAnswers(host, file, path), k) ==>
      FindImportFile(host, file, path) == StrategyAnswers(host, file, path)[k]
  {
    var answers := StrategyAnswers(host, file, path);
    FirstSomeOfFour(answers[0], answers[1], answers[2], answers[3]);
    assert answers == [answers[0], answers[1], answers[2], answers[3]];
  }

  /** The first answer among four, spelt out as nested `if`s. */
  lemma FirstSomeOfFour<R>(a: Option<R>, b: Option<R>, c: Option<R>, d: Option<R>)
    ensures FirstSome([a, b, c, d]) ==
      if a.Some? then a else if b.Some? then b else if c.Some? then c else d
  {
    var xs := [a, b, c, d];
    if a.Some? {
      assert FirstSomeAt(xs, 0);
    } else if b.Some? {
      assert FirstSomeAt(xs, 1);
    } else if c.Some? {
      assert FirstSomeAt(xs, 2);
    } else if d.Some? {
      assert FirstSomeAt(xs, 3);
    }
  }
}
