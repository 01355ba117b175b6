/**
 * The Kotlin string operations the import resolver relies on, written out so
 * that their behaviour on every input (empty strings, repeated separators,
 * empty search strings) is part of the model.
 */
module Text {
  import opened Wrappers

  /** The characters Kotlin's `Char.isWhitespace` accepts; `String.trim()` drops these. */
  const Whitespace: set<char> := {
    '\t', '\n', '\U{B}', '\U{C}', '\r', '\U{1C}', '\U{1D}', '\U{1E}', '\U{1F}', ' ',
    '\U{A0}', '\U{1680}', '\U{2000}', '\U{2001}', '\U{2002}', '\U{2003}', '\U{2004}',
    '\U{2005}', '\U{2006}', '\U{2007}', '\U{2008}', '\U{2009}', '\U{200A}', '\U{2028}',
    '\U{2029}', '\U{202F}', '\U{205F}', '\U{3000}'
  }

  /** The characters of the line-break regular expression `[\r\n]+`. */
  const LineBreaks: set<char> := {'\r', '\n'}

  predicate NoneIn(s: string, cs: set<char>) {
    forall k :: 0 <= k < |s| ==> s[k] !in cs
  }

  /** Number of characters of `s` that belong to `cs`. */
  function CountIn(s: string, cs: set<char>): nat {
    if s == [] then 0 else (if s[0] in cs then 1 else 0) + CountIn(s[1..], cs)
  }

  // ---------------------------------------------------------------------------
  // split / join

  /**
   * Kotlin's `split`: the parts between separator characters, empty parts
   * included, so that `n` separators always give `n + 1` parts.
   */
  function Split(s: string, seps: set<char>): (parts: seq<string>)
    ensures |parts| == CountIn(s, seps) + 1
    ensures forall k :: 0 <= k < |parts| ==> NoneIn(parts[k], seps)
    ensures NoneIn(s, seps) ==> parts == [s]
    decreases |s|
  {
    if s == [] then [[]]
    else
      var rest := Split(s[1..], seps);
      assert NoneIn(s, seps) ==> NoneIn(s[1..], seps);
      assert [s[0]] + s[1..] == s;
      if s[0] in seps then [[]] + rest
      else [[s[0]] + rest[0]] + rest[1..]
  }

  /** Kotlin's `joinToString(sep)` for a one-character separator. */
  function Join(parts: seq<string>, sep: char): string {
    if parts == [] then []
    else if |parts| == 1 then parts[0]
    else parts[0] + [sep] + Join(parts[1..], sep)
  }

  /** Joining the parts of a split puts back exactly the string that was split. */
  lemma {:induction false} JoinSplit(s: string, sep: char)
    ensures Join(Split(s, {sep}), sep) == s
  {
    if s != [] {
      JoinSplit(s[1..], sep);
      var rest := Split(s[1..], {sep});
      if s[0] != sep && |rest| > 1 {
        assert rest == [rest[0]] + rest[1..];
        assert Join(rest, sep) == rest[0] + [sep] + Join(rest[1..], sep);
        assert s == [s[0]] + s[1..];
      } else if s[0] != sep {
        assert s == [s[0]] + s[1..];
      } else {
        assert s == [sep] + s[1..];
      }
    }
  }

  /** Splitting a join of separator-free parts gives the parts back. */
  lemma {:induction false} SplitJoin(parts: seq<string>, sep: char)
    requires |parts| >= 1
    requires forall k :: 0 <= k < |parts| ==> NoneIn(parts[k], {sep})
    ensures Split(Join(parts, sep), {sep}) == parts
  {
    if |parts| > 1 {
      SplitJoin(parts[1..], sep);
      SplitAfterPart(parts[0], Join(parts[1..], sep), sep);
    }
  }

  /** A separator-free head followed by one separator is split off as the first part. */
  lemma {:induction false} SplitAfterPart(head: string, tail: string, sep: char)
    requires NoneIn(head, {sep})
    ensures Split(head + [sep] + tail, {sep}) == [head] + Split(tail, {sep})
    decreases |head|
  {
    var s := head + [sep] + tail;
    if head == [] {
      assert s[1..] == tail;
    } else {
      SplitAfterPart(head[1..], tail, sep);
      assert s[1..] == head[1..] + [sep] + tail;
      assert [head[0]] + head[1..] == head;
    }
  }

  /** Joining two non-empty lists of parts joins their joins with one separator. */
  lemma {:induction false} JoinAppend(a: seq<string>, b: seq<string>, sep: char)
    requires a != [] && b != []
    ensures Join(a + b, sep) == Join(a, sep) + [sep] + Join(b, sep)
  {
    if |a| == 1 {
      assert (a + b)[1..] == b;
    } else {
      JoinAppend(a[1..], b, sep);
      assert (a + b)[1..] == a[1..] + b;
    }
  }

  /** A part followed by further parts is joined with one separator after it. */
  lemma JoinCons(x: string, rest: seq<string>, sep: char)
    requires rest != []
    ensures Join([x] + rest, sep) == x + [sep] + Join(rest, sep)
  {
    assert ([x] + rest)[1..] == rest;
  }

  /** The non-empty strings of `parts`, in order. */
  function NonEmpty(parts: seq<string>): (r: seq<string>)
    ensures |r| <= |parts|
    ensures forall x :: x in r <==> x in parts && x != []
    ensures (forall k :: 0 <= k < |parts| ==> parts[k] != []) ==> r == parts
  {
    if parts == [] then []
    else if parts[0] == [] then NonEmpty(parts[1..])
    else [parts[0]] + NonEmpty(parts[1..])
  }

  /** The lines of a text as `split("[\r\n]+".toRegex())` gives them, less empty ones. */
  function Lines(s: string): (lines: seq<string>)
    ensures forall k :: 0 <= k < |lines| ==> lines[k] != [] && NoneIn(lines[k], LineBreaks)
  {
    var parts := Split(s, LineBreaks);
    var lines := NonEmpty(parts);
    assert forall k :: 0 <= k < |lines| ==> lines[k] in lines && lines[k] in parts;
    lines
  }

  /** `Split` of a string with a known first character, one step unfolded. */
  lemma SplitCons(x: char, t: string, seps: set<char>)
    ensures Split([x] + t, seps) ==
      if x in seps then [[]] + Split(t, seps)
      else [[x] + Split(t, seps)[0]] + Split(t, seps)[1..]
  {
    assert ([x] + t)[1..] == t;
  }

  /** Splitting at one separator splits the two sides separately, parts kept in order. */
  lemma {:induction false} SplitAtSeparator(a: string, c: char, b: string, seps: set<char>)
    requires c in seps
    ensures Split(a + [c] + b, seps) == Split(a, seps) + Split(b, seps)
    decreases |a|
  {
    if a == [] {
      assert a + [c] + b == [c] + b;
      SplitCons(c, b, seps);
    } else {
      var x, t := a[0], a[1..];
      assert a == [x] + t && a + [c] + b == [x] + (t + [c] + b);
      SplitAtSeparator(t, c, b, seps);
      SplitConsAppend(x, t, t + [c] + b, Split(b, seps), seps);
    }
  }

  /** One character in front of `u` extends `Split(u)` as it extends `Split(t)` when `Split(u) == Split(t) + tail`. */
  lemma SplitConsAppend(x: char, t: string, u: string, tail: seq<string>, seps: set<char>)
    requires Split(u, seps) == Split(t, seps) + tail
    ensures Split([x] + u, seps) == Split([x] + t, seps) + tail
  {
    SplitCons(x, u, seps);
    SplitCons(x, t, seps);
    PartsConsAppend(x, x in seps, Split(t, seps), tail);
  }

  /** The sequence algebra behind `SplitConsAppend`, free of `Split` itself. */
  lemma PartsConsAppend(x: char, isSep: bool, left: seq<string>, tail: seq<string>)
    requires left != []
    ensures (if isSep then [[]] + (left + tail) else [[x] + (left + tail)[0]] + (left + tail)[1..]) ==
      (if isSep then [[]] + left else [[x] + left[0]] + left[1..]) + tail
  {
    assert (left + tail)[0] == left[0] && (left + tail)[1..] == left[1..] + tail;
  }

  /** Dropping empty strings works piecewise: what is kept keeps its order and multiplicity. */
  lemma {:induction false} NonEmptyAppend(x: seq<string>, y: seq<string>)
    ensures NonEmpty(x + y) == NonEmpty(x) + NonEmpty(y)
  {
    if x != [] {
      NonEmptyAppend(x[1..], y);
      assert (x + y)[1..] == x[1..] + y;
    } else {
      assert x + y == y;
    }
  }

  /** The lines on either side of a line break are the lines of each side, in order. */
  lemma LinesAtBreak(a: string, c: char, b: string)
    requires c in LineBreaks
    ensures Lines(a + [c] + b) == Lines(a) + Lines(b)
  {
    SplitAtSeparator(a, c, b, LineBreaks);
    NonEmptyAppend(Split(a, LineBreaks), Split(b, LineBreaks));
  }

  /** A non-empty text without line breaks is one line; an empty text has none. */
  lemma LinesOfOneLine(s: string)
    requires NoneIn(s, LineBreaks)
    ensures Lines(s) == if s == [] then [] else [s]
  {
  }

  // ---------------------------------------------------------------------------
  // trim

  /** Drops the leading characters that belong to `drop`. */
  function TrimStart(s: string, drop: set<char>): (r: string)
    ensures |r| <= |s|
  {
    if s != [] && s[0] in drop then TrimStart(s[1..], drop) else s
  }

  /** `TrimStart` keeps a suffix whose first character is not dropped, and drops only `drop` characters. */
  lemma {:induction false} TrimStartSpec(s: string, drop: set<char>)
    ensures var r := TrimStart(s, drop);
      r == s[|s| - |r|..] &&
      (forall k :: 0 <= k < |s| - |r| ==> s[k] in drop) &&
      (r != [] ==> r[0] !in drop)
  {
    if s != [] && s[0] in drop {
      TrimStartSpec(s[1..], drop);
      var r := TrimStart(s, drop);
      assert forall k :: 1 <= k < |s| - |r| ==> s[k] == s[1..][k - 1];
    }
  }

  /** Drops the trailing characters that belong to `drop`. */
  function TrimEnd(s: string, drop: set<char>): (r: string)
    ensures |r| <= |s|
  {
    if s != [] && s[|s| - 1] in drop then TrimEnd(s[..|s| - 1], drop) else s
  }

  /** `TrimEnd` keeps a prefix whose last character is not dropped, and drops only `drop` characters. */
  lemma {:induction false} TrimEndSpec(s: string, drop: set<char>)
    ensures var r := TrimEnd(s, drop);
      r == s[..|r|] &&
      (forall k :: |r| <= k < |s| ==> s[k] in drop) &&
      (r != [] ==> r[|r| - 1] !in drop)
  {
    if s != [] && s[|s| - 1] in drop {
      TrimEndSpec(s[..|s| - 1], drop);
      var r := TrimEnd(s, drop);
      assert forall k :: |r| <= k < |s| - 1 ==> s[k] == s[..|s| - 1][k];
    }
  }

  /**
   * Kotlin's `trim()` (with `drop == Whitespace`) and `trim(c)` (with
   * `drop == {c}`): drops characters of `drop` from both ends.
   */
  function Trim(s: string, drop: set<char>): (r: string)
    ensures |r| <= |s|
  {
    TrimEnd(TrimStart(s, drop), drop)
  }

  /**
   * `Trim` keeps a middle slice `s[a..a + |r|]`, where `a` is the number of
   * leading characters dropped: everything cut off on either side is in
   * `drop`, the slice neither starts nor ends with a `drop` character, and a
   * string with no `drop` character is kept whole.
   */
  lemma TrimSpec(s: string, drop: set<char>)
    ensures var r, a := Trim(s, drop), |s| - |TrimStart(s, drop)|;
      0 <= a <= |s| - |r| && r == s[a..a + |r|] &&
      (forall k :: 0 <= k < a ==> s[k] in drop) &&
      (forall k :: a + |r| <= k < |s| ==> s[k] in drop) &&
      (r != [] ==> r[0] !in drop && r[|r| - 1] !in drop) &&
      (NoneIn(s, drop) ==> r == s)
  {
    var t := TrimStart(s, drop);
    var r := Trim(s, drop);
    TrimStartSpec(s, drop);
    TrimEndSpec(t, drop);
    var a := |s| - |t|;
    assert t == s[a..] && r == t[..|r|];
    assert t[..|r|] == s[a..a + |r|];
    assert forall k :: a + |r| <= k < |s| ==> s[k] == t[k - a];
    if NoneIn(s, drop) {
      assert t == s by {
        assert s != [] ==> s[0] !in drop;
      }
      assert TrimEnd(s, drop) == s by {
        assert s != [] ==> s[|s| - 1] !in drop;
      }
    }
  }

  // ---------------------------------------------------------------------------
  // search and replace

  /** `sub` occurs in `s` starting at index `i`. */
  predicate OccursAt(s: string, sub: string, i: int) {
    0 <= i && i + |sub| <= |s| && s[i..i + |sub|] == sub
  }

  lemma OccursShift(s: string, sub: string, i: int)
    requires s != [] && 0 <= i
    ensures OccursAt(s[1..], sub, i) <==> OccursAt(s, sub, i + 1)
  {
    if 0 <= i && i + |sub| + 1 <= |s| {
      assert s[1..][i..i + |sub|] == s[i + 1..i + 1 + |sub|];
    }
  }

  /** Kotlin's `indexOf(sub)`: the leftmost occurrence of `sub` in `s`. */
  function IndexOf(s: string, sub: string): (r: Option<nat>)
    ensures r.Some? ==> OccursAt(s, sub, r.value)
    ensures r.Some? ==> forall k :: 0 <= k < r.value ==> !OccursAt(s, sub, k)
    ensures r.None? ==> forall k :: !OccursAt(s, sub, k)
    decreases |s|
  {
    if |sub| > |s| then None
    else if s[..|sub|] == sub then Some(0)
    else
      var rest := IndexOf(s[1..], sub);
      assert !OccursAt(s, sub, 0);
      assert forall k {:trigger OccursAt(s, sub, k)} :: 1 <= k ==> (OccursAt(s[1..], sub, k - 1) <==> OccursAt(s, sub, k)) by {
        forall k | 1 <= k ensures OccursAt(s[1..], sub, k - 1) <==> OccursAt(s, sub, k) {
          OccursShift(s, sub, k - 1);
        }
      }
      match rest
      case None => None
      case Some(i) => Some(i + 1)
  }

  /** Kotlin's `contains(sub)`; every string contains the empty string. */
  predicate Contains(s: string, sub: string) {
    IndexOf(s, sub).Some?
  }

  /** `rep` before every character of `s` and once more at the end. */
  function Interleave(s: string, rep: string): (r: string)
    ensures |r| == |s| + (|s| + 1) * |rep|
  {
    if s == [] then rep else rep + [s[0]] + Interleave(s[1..], rep)
  }

  /**
   * Kotlin's `replace(pat, rep)`: every occurrence of `pat`, scanning left to
   * right without overlap, becomes `rep`. With an empty `pat` the library
   * inserts `rep` around every code point (Kotlin does so around every UTF-16 unit).
   */
  function ReplaceAll(s: string, pat: string, rep: string): (r: string)
    ensures !Contains(s, pat) ==> r == s
    decreases |s|
  {
    if pat == [] then Interleave(s, rep)
    else match IndexOf(s, pat)
      case None => s
      case Some(i) => s[..i] + rep + ReplaceAll(s[i + |pat|..], pat, rep)
  }

  /** Replacing a string by itself changes nothing. */
  lemma {:induction false} ReplaceAllSelf(s: string, pat: string)
    ensures ReplaceAll(s, pat, pat) == s
    decreases |s|
  {
    if pat == [] {
      InterleaveEmpty(s);
    } else {
      match IndexOf(s, pat)
      case None =>
      case Some(i) =>
        var tail := s[i + |pat|..];
        ReplaceAllSelf(tail, pat);
        SpliceAt(s, pat, i);
    }
  }

  /** An occurrence of `pat` at `i` splits `s` around it. */
  lemma SpliceAt(s: string, pat: string, i: nat)
    requires OccursAt(s, pat, i)
    ensures s[..i] + pat + s[i + |pat|..] == s
  {
    assert s == s[..i] + s[i..i + |pat|] + s[i + |pat|..];
  }

  lemma {:induction false} InterleaveEmpty(s: string)
    ensures Interleave(s, []) == s
  {
    if s != [] {
      InterleaveEmpty(s[1..]);
      assert [s[0]] + s[1..] == s;
    }
  }

  /**
   * When `pat` starts `s` and occurs nowhere in the rest, replacing rewrites
   * exactly that leading occurrence: the anchored-prefix reading of a remapping.
   */
  lemma LeadingOccurrenceReplaced(pat: string, rest: string, rep: string)
    requires pat != [] && !Contains(rest, pat)
    ensures ReplaceAll(pat + rest, pat, rep) == rep + rest
  {
    var s := pat + rest;
    assert s[..|pat|] == pat && s[|pat|..] == rest && s[..0] == [];
    ReplaceAllAt(s, pat, rep, 0);
  }

  /** One step of `ReplaceAll`: the leftmost occurrence is replaced, then the rest is scanned. */
  lemma {:induction false} ReplaceAllAt(s: string, pat: string, rep: string, i: nat)
    requires pat != [] && IndexOf(s, pat) == Some(i)
    ensures ReplaceAll(s, pat, rep) == s[..i] + rep + ReplaceAll(s[i + |pat|..], pat, rep)
  {
  }

  /**
   * Kotlin's `replaceFirst(pat, rep)`: only the leftmost occurrence of `pat`
   * becomes `rep`.
   */
  function ReplaceFirst(s: string, pat: string, rep: string): (r: string)
    ensures !Contains(s, pat) ==> r == s
    ensures forall i :: OccursAt(s, pat, i) && (forall k :: 0 <= k < i ==> !OccursAt(s, pat, k)) ==>
      r == s[..i] + rep + s[i + |pat|..]
  {
    match IndexOf(s, pat)
    case None => s
    case Some(i) => s[..i] + rep + s[i + |pat|..]
  }

  /** Replacing the first occurrence of a character: the leftmost one is rewritten. */
  lemma ReplaceFirstChar(s: string, c: char, rep: string, i: int)
    requires 0 <= i < |s| && s[i] == c && NoneIn(s[..i], {c})
    ensures ReplaceFirst(s, [c], rep) == s[..i] + rep + s[i + 1..]
  {
    assert s[i..i + 1] == [c];
    assert OccursAt(s, [c], i);
    forall k | 0 <= k < i
      ensures !OccursAt(s, [c], k)
    {
      assert s[..i][k] == s[k];
      assert s[k..k + 1][0] == s[k];
    }
  }

  /** A string without the character has nothing to replace. */
  lemma ReplaceFirstAbsentChar(s: string, c: char, rep: string)
    requires NoneIn(s, {c})
    ensures ReplaceFirst(s, [c], rep) == s
  {
    assert forall k :: OccursAt(s, [c], k) ==> s[k..k + 1][0] == s[k];
  }
}
