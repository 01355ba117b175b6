/**
 * The part of IntelliJ's virtual file system the resolver touches, made
 * abstract: a finite set of existing locations, the text of files, and the
 * already-deserialised remapping entries of each `foundry.toml`.
 */
module Vfs {
  import opened Wrappers
  import opened Text

  /** A location: the names from the root down; the root itself is `[]`. */
  type Path = seq<string>

  /** An entry of a TOML array as the TOML mapper hands it over: a text node or anything else. */
  datatype TomlValue = TomlText(text: string) | TomlOther

  /**
   * `files`: every existing file and directory below the root.
   * `text`: the decoded contents of files (a file missing here reads as empty).
   * `tomlRemappings`: for a `foundry.toml`, the nodes under
   * `profile.default.remappings`; a file missing here stands for a missing key
   * or a document the mapper could not read.
   */
  datatype Host = Host(files: set<Path>, text: map<Path, string>, tomlRemappings: map<Path, seq<TomlValue>>)

  function TextOf(host: Host, f: Path): string {
    if f in host.text then host.text[f] else []
  }

  function TomlRemappingsOf(host: Host, f: Path): seq<TomlValue> {
    if f in host.tomlRemappings then host.tomlRemappings[f] else []
  }

  function Parent(p: Path): Path
    requires p != []
  {
    p[..|p| - 1]
  }

  /**
   * The ancestors of `p`'s parent are the ancestors of `p` other than `p`
   * itself: the chain `p`, `p.parent`, ... ends at the root, which has none.
   */
  lemma ParentPrefixes(p: Path)
    requires p != []
    ensures |Parent(p)| == |p| - 1
    ensures forall n :: 0 <= n <= |p| - 1 ==> Parent(p)[..n] == p[..n]
  {
  }

  /** A path segment that names a child: not empty, not `.` or `..`, no `/`. */
  predicate PlainName(seg: string) {
    seg != [] && seg != "." && seg != ".." && NoneIn(seg, {'/'})
  }

  predicate AllPlain(names: seq<string>) {
    forall k :: 0 <= k < |names| ==> PlainName(names[k])
  }

  /** Every step from `at` down along `names` exists. */
  predicate AllExist(files: set<Path>, at: Path, names: seq<string>) {
    forall k :: 1 <= k <= |names| ==> at + names[..k] in files
  }

  /**
   * `findFileByRelativePath` one segment at a time: empty segments and `.`
   * stay put, `..` goes to the parent (there is none above the root), and a
   * name must be an existing child.
   */
  function Walk(files: set<Path>, at: Path, segs: seq<string>): Option<Path>
    decreases |segs|
  {
    if segs == [] then Some(at)
    else if segs[0] == [] || segs[0] == "." then Walk(files, at, segs[1..])
    else if segs[0] == ".." then (if at == [] then None else Walk(files, Parent(at), segs[1..]))
    else if at + [segs[0]] in files then Walk(files, at + [segs[0]], segs[1..])
    else None
  }

  /**
   * A walk ends at an existing location or, when every name it entered was
   * left again by `..`, at `at` itself or one of its ancestors.
   */
  lemma {:induction false} WalkEndsInside(files: set<Path>, at: Path, segs: seq<string>)
    ensures Walk(files, at, segs).Some? ==>
      Walk(files, at, segs).value in files || Walk(files, at, segs).value <= at
    decreases |segs|
  {
    if segs != [] {
      if segs[0] == [] || segs[0] == "." {
        WalkEndsInside(files, at, segs[1..]);
      } else if segs[0] == ".." {
        if at != [] {
          WalkEndsInside(files, Parent(at), segs[1..]);
        }
      } else if at + [segs[0]] in files {
        var next := at + [segs[0]];
        WalkEndsInside(files, next, segs[1..]);
        var r := Walk(files, next, segs[1..]);
        if r.Some? && r.value <= next && r.value != next {
          assert r.value == next[..|r.value|] && next[..|r.value|] == at[..|r.value|];
        }
      }
    }
  }

  /**
   * `base.findFileByRelativePath(rel)`: what it finds exists, unless the
   * relative path only climbs back to `base` or above it.
   */
  function Lookup(files: set<Path>, base: Path, rel: string): (r: Option<Path>)
    ensures r.Some? ==> r.value in files || r.value <= base
  {
    WalkEndsInside(files, base, Split(rel, {'/'}));
    Walk(files, base, Split(rel, {'/'}))
  }

  /** The child `name` of `d`, if it exists. */
  function Child(files: set<Path>, d: Path, name: string): Option<Path> {
    if d + [name] in files then Some(d + [name]) else None
  }

  /** Looking up a single plain name is asking for that child. */
  lemma LookupChild(files: set<Path>, d: Path, name: string)
    requires PlainName(name)
    ensures Lookup(files, d, name) == Child(files, d, name)
  {
    assert Join([name], '/') == name;
    LookupPlain(files, d, [name]);
    assert [name][..1] == [name];
  }

  /** Walking plain names finds `at + names` exactly when every step exists. */
  lemma {:induction false} WalkPlain(files: set<Path>, at: Path, names: seq<string>)
    requires AllPlain(names)
    ensures Walk(files, at, names) == if AllExist(files, at, names) then Some(at + names) else None
    decreases |names|
  {
    if names == [] {
      assert at + names == at;
    } else {
      var next := at + [names[0]];
      assert PlainName(names[0]);
      assert Walk(files, at, names) == if next in files then Walk(files, next, names[1..]) else None;
      assert AllPlain(names[1..]) by {
        forall k | 0 <= k < |names[1..]| ensures PlainName(names[1..][k]) {
          assert names[1..][k] == names[k + 1];
        }
      }
      WalkPlain(files, next, names[1..]);
      assert at + names[..1] == next;
      forall k | 1 <= k <= |names[1..]|
        ensures next + names[1..][..k] == at + names[..k + 1]
      {
        assert names[..k + 1] == [names[0]] + names[1..][..k];
      }
      if next in files {
        assert AllExist(files, at, names) <==> AllExist(files, next, names[1..]) by {
          if AllExist(files, next, names[1..]) {
            forall k | 1 <= k <= |names| ensures at + names[..k] in files {
              if k > 1 {
                assert next + names[1..][..k - 1] == at + names[..k];
              }
            }
          }
          if AllExist(files, at, names) {
            forall k | 1 <= k <= |names[1..]| ensures next + names[1..][..k] in files {
              assert at + names[..k + 1] in files;
            }
          }
        }
        assert next + names[1..] == at + names;
      } else {
        assert !(at + names[..1] in files);
      }
    }
  }

  /** Looking up `n1/.../nk` from `base` finds `base + [n1, ..., nk]` when every step exists. */
  lemma LookupPlain(files: set<Path>, base: Path, names: seq<string>)
    requires names != [] && AllPlain(names)
    ensures Lookup(files, base, Join(names, '/')) ==
      if AllExist(files, base, names) then Some(base + names) else None
  {
    SplitJoin(names, '/');
    WalkPlain(files, base, names);
  }

  /** Looking up `../n1/.../nk` from `base` starts from its parent. */
  lemma LookupFromParent(files: set<Path>, base: Path, names: seq<string>)
    requires base != [] && names != [] && AllPlain(names)
    ensures Lookup(files, base, Join([".."] + names, '/')) ==
      if AllExist(files, Parent(base), names) then Some(Parent(base) + names) else None
  {
    var segs := [".."] + names;
    assert forall k :: 0 <= k < |segs| ==> NoneIn(segs[k], {'/'});
    SplitJoin(segs, '/');
    assert segs[1..] == names;
    WalkPlain(files, Parent(base), names);
  }
}
