/**
 * Relative paths inside a workspace and the iterator over their components
 * (src/common.rs).
 *
 * Strings are `seq<char>`, and indexes are character positions. Every index
 * `next` produces falls just after a `/` or one past the end, and there a
 * character position and a byte offset of the Rust `&str` name the same
 * place: both separators are ASCII. The exception is the byte 1 where
 * `components_starting_at_common_ancestor` starts below the root; the
 * section "Byte offsets" at the end counts UTF-8 widths for it.
 */
module Common {
  import opened Wrappers

  /** No backslash anywhere: `new` has already turned every `\` into `/`. */
  predicate NoBackslash(s: string) {
    forall i :: 0 <= i < |s| ==> s[i] != '\\'
  }

  /** No `/` in a single component. */
  predicate NoSeparator(c: string) {
    forall j :: 0 <= j < |c| ==> c[j] != '/'
  }

  predicate NoTrailingSeparator(s: string) {
    |s| == 0 || s[|s| - 1] != '/'
  }

  /** What every RelativePath satisfies: normalised separators, and neither a
    * leading nor a trailing `/`. The empty string is the root. */
  predicate IsRelativePath(s: string) {
    && NoBackslash(s)
    && NoTrailingSeparator(s)
    && (|s| > 0 ==> s[0] != '/')
  }

  /** The newtype `RelativePath(String)`: its field is private, so only `new`
    * (or the default, the empty root) can produce one. */
  type RelativePath = s: string | IsRelativePath(s) witness ""

  datatype RelativePathError = InvalidPath(path: string)

  /** `normalize_separators`: every `\` becomes `/`, nothing else changes. */
  function NormalizeSeparators(path: string): (r: string)
    ensures |r| == |path|
    ensures forall i :: 0 <= i < |path| ==> r[i] == (if path[i] == '\\' then '/' else path[i])
  {
    if path == [] then []
    else [if path[0] == '\\' then '/' else path[0]] + NormalizeSeparators(path[1..])
  }

  /** `RelativePath::new`: rejected exactly when the input starts or ends with
    * either separator; otherwise the normalised string. */
  function New(path: string): (r: Result<RelativePath, RelativePathError>)
    ensures r.Failure? <==> |path| > 0 && (path[0] in "/\\" || path[|path| - 1] in "/\\")
    ensures r.Success? ==> r.value == NormalizeSeparators(path)
    ensures r.Failure? ==> r.error == InvalidPath(NormalizeSeparators(path))
  {
    var pathString := NormalizeSeparators(path);
    if |pathString| > 0 && (pathString[0] == '/' || pathString[|pathString| - 1] == '/') then
      Failure(InvalidPath(pathString))
    else
      Success(pathString)
  }

  /** `new` accepts every string that already is a relative path, unchanged. */
  lemma NewOfRelativePath(s: string)
    requires IsRelativePath(s)
    ensures New(s) == Success(s)
  {
    assert NormalizeSeparators(s) == s;
  }

  /** The first index of `c` in `s` (`str::find`). */
  function Find(s: string, c: char): (r: Option<nat>)
    ensures r.Some? ==> r.value < |s| && s[r.value] == c
    ensures r.Some? ==> forall j :: 0 <= j < r.value ==> s[j] != c
    ensures r.None? ==> forall j :: 0 <= j < |s| ==> s[j] != c
  {
    if s == [] then None
    else if s[0] == c then Some(0)
    else match Find(s[1..], c)
      case None => None
      case Some(i) => Some(i + 1)
  }

  /** The last index of `c` in `s` (`str::rfind`). */
  function RFind(s: string, c: char): (r: Option<nat>)
    ensures r.Some? ==> r.value < |s| && s[r.value] == c
    ensures r.Some? ==> forall j :: r.value < j < |s| ==> s[j] != c
    ensures r.None? ==> forall j :: 0 <= j < |s| ==> s[j] != c
  {
    if s == [] then None
    else if s[|s| - 1] == c then Some(|s| - 1)
    else RFind(s[..|s| - 1], c)
  }

  lemma FindIs(s: string, c: char, i: nat)
    requires i < |s| && s[i] == c
    requires forall j :: 0 <= j < i ==> s[j] != c
    ensures Find(s, c) == Some(i)
  {
  }

  lemma RFindIs(s: string, c: char, i: nat)
    requires i < |s| && s[i] == c
    requires forall j :: i < j < |s| ==> s[j] != c
    ensures RFind(s, c) == Some(i)
  {
  }

  /** The components of a path, split on `/`, exactly as the iterator yields
    * them: the empty path has none. */
  function ComponentsOf(s: string): (cs: seq<string>)
    ensures NoSeparatorIn(cs)
    ensures cs == [] <==> s == []
    decreases |s|
  {
    if s == [] then []
    else match Find(s, '/')
      case None => [s]
      case Some(i) => [s[..i]] + ComponentsOf(s[i + 1..])
  }

  /** A separator-free non-empty head followed by `/` is the first component. */
  lemma ComponentsOfCons(head: string, tail: string)
    requires head != [] && NoSeparator(head)
    ensures ComponentsOf(head + "/" + tail) == [head] + ComponentsOf(tail)
  {
    var s := head + "/" + tail;
    assert forall j :: 0 <= j < |head| ==> s[j] == head[j];
    FindIs(s, '/', |head|);
    assert s[..|head|] == head && s[|head| + 1..] == tail;
  }

  /** A non-empty string without `/` is its only component. */
  lemma ComponentsOfSingle(s: string)
    requires s != [] && NoSeparator(s)
    ensures ComponentsOf(s) == [s]
  {
    assert Find(s, '/') == None;
  }

  /** Two non-empty separator-free components joined by `/` split back into them. */
  lemma ComponentsOfTwo(x: string, y: string)
    requires x != [] && y != [] && NoSeparator(x) && NoSeparator(y)
    ensures ComponentsOf(x + "/" + y) == [x, y]
  {
    ComponentsOfCons(x, y);
    ComponentsOfSingle(y);
  }

  /** Three non-empty separator-free components joined by `/` split back into them. */
  lemma ComponentsOfThree(x: string, y: string, z: string)
    requires x != [] && y != [] && z != []
    requires NoSeparator(x) && NoSeparator(y) && NoSeparator(z)
    ensures ComponentsOf(x + "/" + y + "/" + z) == [x, y, z]
  {
    assert x + "/" + y + "/" + z == x + "/" + (y + "/" + z);
    ComponentsOfCons(x, y + "/" + z);
    ComponentsOfCons(y, z);
    ComponentsOfSingle(z);
  }

  lemma ComponentsOfFour(w: string, x: string, y: string, z: string)
    requires w != [] && x != [] && y != [] && z != []
    requires NoSeparator(w) && NoSeparator(x) && NoSeparator(y) && NoSeparator(z)
    ensures ComponentsOf(w + "/" + (x + "/" + y + "/" + z)) == [w, x, y, z]
  {
    ComponentsOfCons(w, x + "/" + y + "/" + z);
    ComponentsOfThree(x, y, z);
  }

  /** The components joined with `/` (the string a prefix of components stands for). */
  function Join(cs: seq<string>): string {
    if |cs| == 0 then ""
    else if |cs| == 1 then cs[0]
    else Join(cs[..|cs| - 1]) + "/" + cs[|cs| - 1]
  }

  predicate NoSeparatorIn(cs: seq<string>) {
    forall i :: 0 <= i < |cs| ==> NoSeparator(cs[i])
  }

  lemma {:induction false} JoinSplit(cs: seq<string>, k: nat)
    requires 0 < k < |cs|
    ensures Join(cs) == Join(cs[..k]) + "/" + Join(cs[k..])
    decreases |cs|
  {
    var n := |cs|;
    if k == n - 1 {
      assert cs[k..] == [cs[n - 1]];
    } else {
      var front := cs[..n - 1];
      JoinSplit(front, k);
      assert front[..k] == cs[..k];
      assert cs[k..][..n - 1 - k] == front[k..];
      assert cs[k..][n - 1 - k] == cs[n - 1];
    }
  }

  lemma JoinSnoc(cs: seq<string>, c: string)
    requires cs != []
    ensures Join(cs + [c]) == Join(cs) + "/" + c
  {
    assert (cs + [c])[..|cs|] == cs;
  }

  lemma JoinCons(c: string, cs: seq<string>)
    requires cs != []
    ensures Join([c] + cs) == c + "/" + Join(cs)
  {
    JoinSplit([c] + cs, 1);
    assert ([c] + cs)[..1] == [c];
    assert ([c] + cs)[1..] == cs;
  }
  /** The path of a non-empty join is non-empty when its first part is. */
  lemma JoinNonEmpty(cs: seq<string>)
    requires cs != [] && cs[0] != ""
    ensures Join(cs) != ""
  {
    if |cs| > 1 {
      JoinSplit(cs, 1);
    }
  }


  /** Joining the components with `/` gives back the path. */
  lemma {:induction false} JoinComponents(s: string)
    requires NoTrailingSeparator(s)
    ensures Join(ComponentsOf(s)) == s
    decreases |s|
  {
    if s != [] {
      match Find(s, '/')
      case None =>
        assert ComponentsOf(s) == [s];
      case Some(i) =>
        var head, rest := s[..i], s[i + 1..];
        assert s == head + "/" + rest;
        assert rest != [] && NoTrailingSeparator(rest);
        var tail := ComponentsOf(rest);
        assert ComponentsOf(s) == [head] + tail;
        assert Join(tail) == rest by {
          JoinComponents(rest);
        }
        JoinCons(head, tail);
    }
  }

  /** Splitting the join of separator-free components gives them back, unless
    * the last one is empty (it would vanish like a trailing `/`). */
  lemma {:induction false} ComponentsOfJoin(cs: seq<string>)
    requires NoSeparatorIn(cs)
    requires cs == [] || cs[|cs| - 1] != ""
    ensures ComponentsOf(Join(cs)) == cs
    decreases |cs|
  {
    if |cs| == 1 {
      assert NoSeparator(cs[0]);
      assert Find(cs[0], '/') == None;
    } else if |cs| > 1 {
      var c, rest := cs[0], cs[1..];
      assert cs == [c] + rest;
      JoinCons(c, rest);
      var s := Join(cs);
      assert NoSeparator(c);
      assert forall j :: 0 <= j < |c| ==> s[j] == c[j];
      FindIs(s, '/', |c|);
      ComponentsOfJoin(rest);
      assert s[..|c|] == c;
      assert s[|c| + 1..] == Join(rest);
    }
  }

  /** A non-empty path has a non-empty last component. */
  lemma LastComponentNonEmpty(s: string)
    requires NoTrailingSeparator(s) && s != []
    ensures var cs := ComponentsOf(s); cs[|cs| - 1] != ""
  {
    JoinComponents(s);
  }

  /** A relative path does not start with an empty component. */
  lemma FirstComponentNonEmpty(s: RelativePath)
    requires s != ""
    ensures ComponentsOf(s)[0] != ""
  {
  }

  /** The character index at which component `k` starts; once all components
    * are consumed, one past the end (the iterator's `index` after `k` steps). */
  function Offset(s: string, k: nat): nat
    requires k <= |ComponentsOf(s)|
  {
    if k == 0 then 0 else |Join(ComponentsOf(s)[..k])| + 1
  }

  /** What remains after the first `k` components is the join of the others. */
  lemma SuffixAtOffset(s: string, k: nat)
    requires NoTrailingSeparator(s)
    requires k < |ComponentsOf(s)|
    ensures Offset(s, k) < |s|
    ensures s[Offset(s, k)..] == Join(ComponentsOf(s)[k..])
    ensures 0 < k ==> s[..Offset(s, k) - 1] == Join(ComponentsOf(s)[..k])
  {
    var cs := ComponentsOf(s);
    var t := Join(cs[k..]);
    if k == 0 {
      assert cs[0..] == cs;
      JoinComponents(s);
    } else {
      var front := Join(cs[..k]);
      SplitAtComponent(s, k);
      assert s[|front| + 1..] == t && s[..|front|] == front;
    }
    JoinSuffixNonEmpty(s, k);
  }

  lemma SplitAtComponent(s: string, k: nat)
    requires NoTrailingSeparator(s)
    requires 0 < k < |ComponentsOf(s)|
    ensures s == Join(ComponentsOf(s)[..k]) + "/" + Join(ComponentsOf(s)[k..])
  {
    JoinComponents(s);
    JoinSplit(ComponentsOf(s), k);
  }

  lemma JoinSuffixNonEmpty(s: string, k: nat)
    requires NoTrailingSeparator(s)
    requires k < |ComponentsOf(s)|
    ensures Join(ComponentsOf(s)[k..]) != ""
  {
    var cs := ComponentsOf(s);
    LastComponentNonEmpty(s);
    if |cs[k..]| > 1 {
      JoinSplit(cs[k..], 1);
    } else {
      assert cs[k..] == [cs[|cs| - 1]];
    }
  }

  /** `RelativePathComponents::next` on the bare state: the component that
    * starts at `index` and the index just past its separator. */
  function Step(s: string, index: nat): (r: (Option<string>, nat))
    ensures r.0.None? <==> index >= |s|
    ensures r.0.None? ==> r.1 == index
    ensures r.0.Some? ==> index < r.1 <= |s| + 1 && NoSeparator(r.0.value)
  {
    if index >= |s| then (None, index)
    else
      var nextIndex := match Find(s[index..], '/')
        case Some(j) => j
        case None => |s| - index;
      assert forall j :: 0 <= j < nextIndex ==> s[index..][j] != '/';
      assert s[index..index + nextIndex] == s[index..][..nextIndex];
      (Some(s[index..index + nextIndex]), index + nextIndex + 1)
  }

  /** `next` from `off` yields a separator-free `c` found there when `c` is
    * followed by a `/` or by the end. */
  lemma StepAt(s: string, off: nat, c: string)
    requires off < |s| && off + |c| <= |s|
    requires s[off..off + |c|] == c && NoSeparator(c)
    requires off + |c| == |s| || s[off + |c|] == '/'
    ensures Step(s, off) == (Some(c), off + |c| + 1)
  {
    var t := s[off..];
    assert forall j :: 0 <= j < |c| ==> t[j] == c[j];
    if off + |c| < |s| {
      FindIs(t, '/', |c|);
    } else {
      assert Find(t, '/') == None;
    }
  }

  /** Component `k + 1` begins one past the end of component `k`. */
  lemma OffsetSucc(s: string, k: nat)
    requires k < |ComponentsOf(s)|
    ensures Offset(s, k + 1) == Offset(s, k) + |ComponentsOf(s)[k]| + 1
  {
    var cs := ComponentsOf(s);
    if k > 0 {
      assert cs[..k + 1][..k] == cs[..k];
    } else {
      assert cs[..1] == [cs[0]];
    }
  }

  /** `next` from where a join of components begins yields the first of them. */
  lemma StepOnJoin(s: string, off: nat, cs: seq<string>)
    requires off < |s| && s[off..] == Join(cs)
    requires cs != [] && NoSeparator(cs[0])
    ensures Step(s, off) == (Some(cs[0]), off + |cs[0]| + 1)
  {
    var c := cs[0];
    var t := s[off..];
    if |cs| > 1 {
      JoinSplit(cs, 1);
      assert cs[..1] == [c];
      var u := Join(cs[1..]);
      assert t == c + "/" + u;
      assert t[..|c|] == c && t[|c|] == '/';
      assert s[off..off + |c|] == t[..|c|];
      assert s[off + |c|] == t[|c|];
    } else {
      assert t == c;
    }
    StepAt(s, off, c);
  }

  /** Started where component `k` begins, `next` yields that component and
    * moves to where component `k + 1` begins. */
  lemma StepAtOffset(s: string, k: nat)
    requires NoTrailingSeparator(s)
    requires k < |ComponentsOf(s)|
    ensures Step(s, Offset(s, k)) == (Some(ComponentsOf(s)[k]), Offset(s, k + 1))
  {
    var cs := ComponentsOf(s);
    var off := Offset(s, k);
    var tail := cs[k..];
    assert tail[0] == cs[k];
    SuffixAtOffset(s, k);
    StepOnJoin(s, off, tail);
    OffsetSucc(s, k);
  }

  /** Once every component is consumed, `next` yields None and stays put. */
  lemma StepExhausted(s: string)
    requires NoTrailingSeparator(s)
    ensures Step(s, Offset(s, |ComponentsOf(s)|)) == (None, Offset(s, |ComponentsOf(s)|))
  {
    var cs := ComponentsOf(s);
    if cs != [] {
      assert cs[..|cs|] == cs;
      JoinComponents(s);
    }
  }

  /** The state is at its last entry exactly when every component is consumed. */
  lemma LastEntryAtOffset(s: string, m: nat)
    requires NoTrailingSeparator(s)
    requires 1 <= m <= |ComponentsOf(s)|
    ensures Offset(s, m) >= |s| <==> m == |ComponentsOf(s)|
  {
    var cs := ComponentsOf(s);
    if m < |cs| {
      SuffixAtOffset(s, m);
    } else {
      assert cs[..m] == cs;
      JoinComponents(s);
    }
  }

  /** `as_accumulated_str` on the bare state: everything before the separator
    * that precedes `index`. */
  function Accumulated(s: string, index: nat): (r: string)
    requires index <= |s| + 1
    ensures |r| <= |s| && r == s[..|r|]
  {
    s[..if index == 0 then 0 else index - 1]
  }

  /** Where component `m` begins, the accumulated string is the first `m`
    * components joined. */
  lemma AccumulatedAtOffset(s: string, m: nat)
    requires NoTrailingSeparator(s)
    requires m <= |ComponentsOf(s)|
    ensures Offset(s, m) <= |s| + 1
    ensures Accumulated(s, Offset(s, m)) == Join(ComponentsOf(s)[..m])
  {
    var cs := ComponentsOf(s);
    if 0 < m < |cs| {
      SuffixAtOffset(s, m);
    } else if m == |cs| && m > 0 {
      assert cs[..m] == cs;
      JoinComponents(s);
    }
  }

  /** The iterator state after `k` calls of `next` from `index`. */
  function Advance(s: string, index: nat, k: nat): nat
    decreases k
  {
    if k == 0 then index else Advance(s, Step(s, index).1, k - 1)
  }

  function Min(a: nat, b: nat): nat {
    if a <= b then a else b
  }

  /** After `k` calls of `next` on a fresh iterator, the accumulated string is the
    * first `k` components joined; after exhaustion it stays the whole path. */
  lemma {:induction false} AccumulatedAfterSteps(s: string, k: nat)
    requires NoTrailingSeparator(s)
    ensures var m := Min(k, |ComponentsOf(s)|);
      && Advance(s, 0, k) == Offset(s, m)
      && Offset(s, m) <= |s| + 1
      && Accumulated(s, Advance(s, 0, k)) == Join(ComponentsOf(s)[..m])
    ensures k >= |ComponentsOf(s)| ==> Accumulated(s, Advance(s, 0, k)) == s
  {
    AdvanceFromOffset(s, 0, k);
    var m := Min(k, |ComponentsOf(s)|);
    AccumulatedAtOffset(s, m);
    if k >= |ComponentsOf(s)| {
      var cs := ComponentsOf(s);
      assert cs[..|cs|] == cs;
      JoinComponents(s);
    }
  }

  lemma {:induction false} AdvanceFromOffset(s: string, j: nat, k: nat)
    requires NoTrailingSeparator(s)
    requires j <= |ComponentsOf(s)|
    ensures Advance(s, Offset(s, j), k) == Offset(s, Min(j + k, |ComponentsOf(s)|))
    decreases k
  {
    var n := |ComponentsOf(s)|;
    if k > 0 {
      var j' := if j < n then j + 1 else j;
      assert Step(s, Offset(s, j)).1 == Offset(s, j') by {
        if j < n {
          StepAtOffset(s, j);
        } else {
          StepExhausted(s);
        }
      }
      AdvanceFromOffset(s, j', k - 1);
      assert Min(j + k, n) == Min(j' + k - 1, n);
    }
  }

  /** Everything `next` yields from `index` on, until it first yields None. */
  function Remaining(s: string, index: nat): seq<string>
    decreases |s| + 1 - index
  {
    if index >= |s| then []
    else
      var r := Step(s, index);
      assert index < r.1 <= |s| + 1;
      [r.0.value] + Remaining(s, r.1)
  }

  /** From where component `k` begins the iterator yields exactly the components
    * from `k` on; from a fresh iterator, exactly `ComponentsOf`. */
  lemma {:induction false} RemainingFromOffset(s: string, k: nat)
    requires NoTrailingSeparator(s)
    requires k <= |ComponentsOf(s)|
    ensures Remaining(s, Offset(s, k)) == ComponentsOf(s)[k..]
    decreases |ComponentsOf(s)| - k
  {
    var cs := ComponentsOf(s);
    var off := Offset(s, k);
    if k < |cs| {
      assert cs[k..] == [cs[k]] + cs[k + 1..];
      RemainingFromOffset(s, k + 1);
      RemainingStep(s, k);
    } else {
      assert off >= |s| by {
        if k > 0 {
          LastEntryAtOffset(s, k);
        }
      }
    }
  }

  lemma RemainingStep(s: string, k: nat)
    requires NoTrailingSeparator(s)
    requires k < |ComponentsOf(s)|
    ensures Remaining(s, Offset(s, k)) == [ComponentsOf(s)[k]] + Remaining(s, Offset(s, k + 1))
  {
    StepAtOffset(s, k);
  }

  /** `file_name`: None for the root, otherwise the text after the last `/`. */
  function FileName(p: RelativePath): (r: Option<string>)
    ensures r.None? <==> p == ""
    ensures r.Some? ==> NoSeparator(r.value) && r.value != ""
    ensures r.Some? ==> |r.value| <= |p| && p[|p| - |r.value|..] == r.value
    ensures r.Some? && |r.value| < |p| ==> p[|p| - |r.value| - 1] == '/'
  {
    if p == "" then None
    else
      var index := match RFind(p, '/') case Some(i) => i + 1 case None => 0;
      assert forall j :: index <= j < |p| ==> p[j] != '/';
      assert forall j :: 0 <= j < |p[index..]| ==> p[index..][j] != '/';
      Some(p[index..])
  }

  /** The file name is the last component. */
  lemma FileNameIsLastComponent(p: RelativePath)
    requires p != ""
    ensures var cs := ComponentsOf(p); FileName(p) == Some(cs[|cs| - 1])
  {
    var cs := ComponentsOf(p);
    var n := |cs|;
    JoinComponents(p);
    var last := cs[n - 1];
    assert NoSeparator(last);
    if n == 1 {
      assert p == last;
      assert RFind(p, '/') == None;
    } else {
      var front := Join(cs[..n - 1]);
      assert p == front + "/" + last;
      RFindIs(p, '/', |front|);
      assert p[|front| + 1..] == last;
    }
  }

  /** `is_empty`: the root, the one path without components. */
  function IsEmpty(p: RelativePath): (b: bool)
    ensures b <==> ComponentsOf(p) == []
  {
    |p| == 0
  }

  /** The length of the longest common prefix of two component sequences. */
  function CommonPrefixLength(a: seq<string>, b: seq<string>): (k: nat)
    ensures k <= |a| && k <= |b|
    ensures a[..k] == b[..k]
    ensures k < |a| && k < |b| ==> a[k] != b[k]
  {
    if a == [] || b == [] || a[0] != b[0] then 0
    else
      var k := 1 + CommonPrefixLength(a[1..], b[1..]);
      assert a[..k] == [a[0]] + a[1..][..k - 1];
      assert b[..k] == [b[0]] + b[1..][..k - 1];
      k
  }

  lemma CommonPrefixLengthSymmetric(a: seq<string>, b: seq<string>)
    ensures CommonPrefixLength(a, b) == CommonPrefixLength(b, a)
  {
  }

  /** Any shared prefix is at most as long as the longest one. */
  lemma CommonPrefixLengthMaximal(a: seq<string>, b: seq<string>, j: nat)
    requires j <= |a| && j <= |b| && a[..j] == b[..j]
    ensures j <= CommonPrefixLength(a, b)
  {
  }

  /** The number of whole components two paths share at the front. */
  function SharedComponents(a: RelativePath, b: RelativePath): nat {
    CommonPrefixLength(ComponentsOf(a), ComponentsOf(b))
  }

  /** The common ancestor of two paths as a string: the shared components joined. */
  function CommonAncestorOf(a: RelativePath, b: RelativePath): string {
    Join(ComponentsOf(a)[..SharedComponents(a, b)])
  }

  /** What `common_ancestor_separator_index` returns: where, in `a`, the common
    * ancestor ends. */
  function SeparatorIndex(a: RelativePath, b: RelativePath): nat {
    |CommonAncestorOf(a, b)|
  }

  /** The joined prefix of the components is a string prefix of the path. */
  lemma JoinPrefixIsPrefix(s: string, k: nat)
    requires NoTrailingSeparator(s)
    requires k <= |ComponentsOf(s)|
    ensures |Join(ComponentsOf(s)[..k])| <= |s|
    ensures s[..|Join(ComponentsOf(s)[..k])|] == Join(ComponentsOf(s)[..k])
  {
    AccumulatedAtOffset(s, k);
  }

  /** The common ancestor is the longest shared whole-component prefix, it is a
    * string prefix of both paths, and it does not depend on the order of the two. */
  lemma CommonAncestorIsLongestSharedPrefix(a: RelativePath, b: RelativePath)
    ensures var k := SharedComponents(a, b);
      && ComponentsOf(a)[..k] == ComponentsOf(b)[..k]
      && (k < |ComponentsOf(a)| && k < |ComponentsOf(b)| ==> ComponentsOf(a)[k] != ComponentsOf(b)[k])
    ensures |CommonAncestorOf(a, b)| <= |a| && a[..|CommonAncestorOf(a, b)|] == CommonAncestorOf(a, b)
    ensures |CommonAncestorOf(a, b)| <= |b| && b[..|CommonAncestorOf(a, b)|] == CommonAncestorOf(a, b)
    ensures CommonAncestorOf(a, b) == CommonAncestorOf(b, a)
  {
    var k := SharedComponents(a, b);
    CommonPrefixLengthSymmetric(ComponentsOf(a), ComponentsOf(b));
    JoinPrefixIsPrefix(a, k);
    JoinPrefixIsPrefix(b, k);
  }

  /** `common_ancestor(p, p)` is `p` itself. */
  lemma CommonAncestorOfItself(p: RelativePath)
    ensures CommonAncestorOf(p, p) == p
  {
    var cs := ComponentsOf(p);
    assert cs[..|cs|] == cs;
    JoinComponents(p);
  }

  /** The iterator over a path's components (`RelativePathComponents`): the
    * whole string, fixed, and the index of the next component. */
  class RelativePathComponents {
    const inner: string
    var index: nat

    ghost predicate Valid()
      reads this
    {
      index <= |inner| + 1
    }

    constructor (inner: string, index: nat)
      requires index <= |inner| + 1
      ensures Valid() && this.inner == inner && this.index == index
    {
      this.inner := inner;
      this.index := index;
    }

    /** `as_full_str`: the whole string, which extends the accumulated one and
      * which `next` leaves as it is. */
    function AsFullStr(): (r: string)
      reads this
      requires Valid()
      ensures |AsAccumulatedStr()| <= |r| && r[..|AsAccumulatedStr()|] == AsAccumulatedStr()
    {
      inner
    }

    /** `as_accumulated_str`: a prefix of the whole string. */
    function AsAccumulatedStr(): (r: string)
      reads this
      requires Valid()
      ensures |r| <= |inner| && r == inner[..|r|]
    {
      Accumulated(inner, index)
    }

    function IsAtLastEntry(): (r: bool)
      reads this
      ensures r <==> Step(inner, index).0.None?
    {
      index >= |inner|
    }

    /** `next`: the component at `index`, or None once the string is used up
      * (and then forever, since `index` does not move). */
    method Next() returns (component: Option<string>)
      requires Valid()
      modifies this
      ensures Valid()
      ensures (component, index) == Step(inner, old(index))
      ensures AsFullStr() == old(AsFullStr())
    {
      if index >= |inner| {
        component := None;
      } else {
        var nextIndex := match Find(inner[index..], '/')
          case Some(j) => j
          case None => |inner| - index;
        component := Some(inner[index..index + nextIndex]);
        index := index + nextIndex + 1;
      }
    }
  }

  /** `components`: a fresh iterator at the start of the path. */
  method Components(p: RelativePath) returns (it: RelativePathComponents)
    ensures fresh(it) && it.Valid() && it.inner == p && it.index == 0
  {
    it := new RelativePathComponents(p, 0);
  }

  /** `PartialEq<RelativePathComponents> for RelativePath`: compares with the
    * whole string, so for a valid path it holds exactly when the two have the
    * same components. */
  function EqualsComponents(p: RelativePath, it: RelativePathComponents): (b: bool)
    ensures IsRelativePath(it.inner) ==> (b <==> ComponentsOf(p) == ComponentsOf(it.inner))
  {
    JoinComponents(p);
    if IsRelativePath(it.inner) then JoinComponents(it.inner); p == it.inner
    else p == it.inner
  }

  /** One call of `next` from where component `k` begins, whether or not
    * components remain. */
  lemma StepFrom(s: string, k: nat)
    requires NoTrailingSeparator(s)
    requires k <= |ComponentsOf(s)|
    ensures Step(s, Offset(s, k)) ==
      if k < |ComponentsOf(s)| then (Some(ComponentsOf(s)[k]), Offset(s, k + 1))
      else (None, Offset(s, k))
  {
    if k < |ComponentsOf(s)| {
      StepAtOffset(s, k);
    } else {
      StepExhausted(s);
    }
  }

  /** Once the components of `a` and `b` part after `k` shared ones, the
    * separator index is where the `k`-th component of `a` ends. */
  lemma SeparatorIndexAt(a: RelativePath, b: RelativePath, k: nat)
    requires k <= |ComponentsOf(a)| && k <= |ComponentsOf(b)|
    requires ComponentsOf(a)[..k] == ComponentsOf(b)[..k]
    requires k == |ComponentsOf(a)| || k == |ComponentsOf(b)| || ComponentsOf(a)[k] != ComponentsOf(b)[k]
    ensures SeparatorIndex(a, b) == if k == 0 then 0 else Offset(a, k) - 1
  {
    var ca, cb := ComponentsOf(a), ComponentsOf(b);
    var m := CommonPrefixLength(ca, cb);
    assert m == k by {
      CommonPrefixLengthMaximal(ca, cb, k);
      forall j | 0 <= j < m
        ensures ca[j] == cb[j]
      {
        assert ca[..m][j] == cb[..m][j];
      }
    }
    assert SeparatorIndex(a, b) == |Join(ca[..k])|;
  }

  lemma SharedPrefixGrows(a: seq<string>, b: seq<string>, k: nat)
    requires k < |a| && k < |b| && a[..k] == b[..k] && a[k] == b[k]
    ensures a[..k + 1] == b[..k + 1]
  {
    assert a[..k + 1] == a[..k] + [a[k]];
    assert b[..k + 1] == b[..k] + [b[k]];
  }

  /** `common_ancestor_separator_index`: steps both iterators while their
    * components agree and remembers where the last agreeing one ended. */
  method CommonAncestorSeparatorIndex(self: RelativePath, other: RelativePath) returns (r: nat)
    ensures r == SeparatorIndex(self, other)
  {
    var selfIter := Components(self);
    var otherIter := Components(other);
    ghost var a, b := ComponentsOf(self), ComponentsOf(other);
    ghost var k: nat := 0;
    var index := 0;
    while true
      invariant selfIter != otherIter
      invariant selfIter.Valid() && otherIter.Valid()
      invariant selfIter.inner == self && otherIter.inner == other
      invariant k <= |a| && k <= |b| && a[..k] == b[..k]
      invariant selfIter.index == Offset(self, k) && otherIter.index == Offset(other, k)
      invariant index == Offset(self, k)
      decreases |a| - k
    {
      var s := selfIter.Next();
      assert s == (if k < |a| then Some(a[k]) else None) by {
        StepFrom(self, k);
      }
      if s.None? {
        break;
      }
      assert selfIter.index == Offset(self, k + 1) by {
        StepFrom(self, k);
      }
      var o := otherIter.Next();
      assert o == (if k < |b| then Some(b[k]) else None) by {
        StepFrom(other, k);
      }
      if o != s {
        break;
      }
      assert otherIter.index == Offset(other, k + 1) by {
        StepFrom(other, k);
      }
      SharedPrefixGrows(a, b, k);
      index := selfIter.index;
      k := k + 1;
    }
    SeparatorIndexAt(self, other, k);
    r := if index == 0 then 0 else index - 1;
  }

  /** `common_ancestor`: an iterator over the common ancestor's string. */
  method CommonAncestor(self: RelativePath, other: RelativePath) returns (it: RelativePathComponents)
    ensures fresh(it) && it.Valid() && it.index == 0
    ensures it.inner == CommonAncestorOf(self, other)
  {
    var index := CommonAncestorSeparatorIndex(self, other);
    CommonAncestorIsLongestSharedPrefix(self, other);
    it := new RelativePathComponents(self[..index], 0);
  }

  /** `components_starting_at_common_ancestor`: an iterator over `self` whose
    * index is one past the common ancestor's end. */
  method ComponentsStartingAtCommonAncestor(self: RelativePath, other: RelativePath)
    returns (it: RelativePathComponents)
    ensures fresh(it) && it.Valid() && it.inner == self
    ensures it.index == SeparatorIndex(self, other) + 1
  {
    var index := CommonAncestorSeparatorIndex(self, other);
    CommonAncestorIsLongestSharedPrefix(self, other);
    it := new RelativePathComponents(self, index + 1);
  }

  /** Started one past the common ancestor, the iterator keeps the whole of
    * `self`, its accumulated string is the common ancestor, and when the
    * ancestor is not the root it yields exactly the components not shared. */
  lemma StartingAtCommonAncestor(self: RelativePath, other: RelativePath)
    ensures var index := SeparatorIndex(self, other) + 1;
      && index <= |self| + 1
      && Accumulated(self, index) == CommonAncestorOf(self, other)
    ensures var k := SharedComponents(self, other);
      k > 0 ==> Remaining(self, SeparatorIndex(self, other) + 1) == ComponentsOf(self)[k..]
  {
    var k := SharedComponents(self, other);
    JoinPrefixIsPrefix(self, k);
    if k > 0 {
      RemainingFromOffset(self, k);
    }
  }

  /** Started one past the root, the Rust iterator is at byte 1. When the
    * first character is ASCII that byte is character 1 (see
    * `StartingPastRootBytes`), and `next` yields the first component without
    * its first character (or nothing, for a one-character path) but moves to
    * where the second component begins all the same. */
  lemma StartingPastRoot(s: RelativePath)
    requires s != ""
    ensures var cs := ComponentsOf(s);
      if |cs| == 1 && |s| == 1 then Step(s, 1) == (None, 1)
      else Step(s, 1) == (Some(cs[0][1..]), Offset(s, 1))
  {
    var cs := ComponentsOf(s);
    FirstComponentNonEmpty(s);
    OffsetSucc(s, 0);
    JoinComponents(s);
    if !(|cs| == 1 && |s| == 1) {
      StepPastFirst(s, cs);
    }
  }

  /** Byte 1 is character 1 exactly when the first character is ASCII; when
    * the first character takes more bytes, byte 1 falls inside it and `next`
    * panics there. */
  lemma StartingPastRootBytes(s: RelativePath)
    requires s != ""
    ensures NextPanicsAt(s, 1) <==> Utf8Width(s[0]) > 1
    ensures Utf8Width(s[0]) == 1 ==> ByteLen(s[..1]) == 1
  {
    FirstByteBoundary(s);
  }

  lemma StepPastFirst(s: string, cs: seq<string>)
    requires s == Join(cs) && cs != [] && cs[0] != "" && NoSeparator(cs[0])
    requires 1 < |s|
    ensures Step(s, 1) == (Some(cs[0][1..]), |cs[0]| + 1)
  {
    var c := cs[0];
    if |cs| > 1 {
      JoinSplit(cs, 1);
      assert cs[..1] == [c];
      assert s == c + "/" + Join(cs[1..]);
      assert s[|c|] == '/';
      assert s[1..|c|] == c[1..];
    } else {
      assert s == c;
    }
    assert forall j :: 0 <= j < |c| - 1 ==> c[1..][j] == c[j + 1];
    StepAt(s, 1, c[1..]);
  }

  // ---------------------------------------------------------------------
  // Byte offsets
  // ---------------------------------------------------------------------

  /** The number of bytes of `c` in UTF-8 (RFC 3629, section 3): one for
    * ASCII, then two, three or four. */
  function Utf8Width(c: char): (w: nat)
    ensures 1 <= w <= 4
    ensures w == 1 <==> c < 0x80 as char
  {
    if c < 0x80 as char then 1
    else if c < 0x800 as char then 2
    else if c < 0x1_0000 as char then 3
    else 4
  }

  /** The length of `s` in bytes, which is what Rust's `str::len` counts. */
  function ByteLen(s: string): nat {
    if s == [] then 0 else Utf8Width(s[0]) + ByteLen(s[1..])
  }

  lemma {:induction false} ByteLenAppend(a: string, b: string)
    ensures ByteLen(a + b) == ByteLen(a) + ByteLen(b)
  {
    if a == [] {
      assert a + b == b;
    } else {
      assert (a + b)[0] == a[0] && (a + b)[1..] == a[1..] + b;
      ByteLenAppend(a[1..], b);
    }
  }

  /** Byte `b` of `s` is where a character begins, or the end. */
  predicate IsCharBoundary(s: string, b: nat) {
    exists i :: 0 <= i <= |s| && ByteLen(s[..i]) == b
  }

  /** `next` on a Rust iterator at byte `b` of `s` slices `s` at `b` unless
    * `b` is at or past the end, and slicing panics unless `b` is a character
    * boundary. The index of this model counts characters, so it is always on
    * a boundary; only `components_starting_at_common_ancestor` can put a
    * Rust iterator off one. */
  predicate NextPanicsAt(s: string, b: nat) {
    b < ByteLen(s) && !IsCharBoundary(s, b)
  }

  /** Byte 1 is a boundary exactly when the first character is ASCII; it is
    * short of the end unless the string is that one ASCII character. */
  lemma FirstByteBoundary(s: string)
    requires s != []
    ensures ByteLen(s[..1]) == Utf8Width(s[0])
    ensures Utf8Width(s[0]) <= ByteLen(s)
    ensures IsCharBoundary(s, 1) <==> Utf8Width(s[0]) == 1
  {
    assert s[..1][0] == s[0] && s[..1][1..] == [];
    if Utf8Width(s[0]) > 1 {
      forall i | 0 <= i <= |s|
        ensures ByteLen(s[..i]) != 1
      {
        if i > 0 {
          assert s[..i][0] == s[0];
        }
      }
    }
  }

  /** The byte index `components_starting_at_common_ancestor` gives its
    * iterator: one past the separator index, which counts the bytes of the
    * common ancestor (0 for the root). */
  function StartByteIndex(self: RelativePath, other: RelativePath): nat {
    ByteLen(CommonAncestorOf(self, other)) + 1
  }

  /** Past a common ancestor that is neither the root nor all of `self`, the
    * character index of this model and the Rust byte index name the same
    * place, since the separator between them is one byte. Past all of `self`
    * both are beyond the end. At the root the byte index is 1. */
  lemma StartingAtCommonAncestorBytes(self: RelativePath, other: RelativePath)
    ensures var k := SharedComponents(self, other);
      var index := SeparatorIndex(self, other) + 1;
      && (0 < k < |ComponentsOf(self)| ==>
            index <= |self| && StartByteIndex(self, other) == ByteLen(self[..index]))
      && (k == |ComponentsOf(self)| ==> index > |self| && StartByteIndex(self, other) > ByteLen(self))
      && (k == 0 ==> StartByteIndex(self, other) == 1)
  {
    var cs := ComponentsOf(self);
    var k := SharedComponents(self, other);
    var anc := CommonAncestorOf(self, other);
    JoinComponents(self);
    if 0 < k < |cs| {
      JoinSplit(cs, k);
      assert self[..|anc| + 1] == anc + "/";
      ByteLenAppend(anc, "/");
    } else if k == |cs| {
      assert cs[..k] == cs;
    }
  }

  /** `components_starting_at_common_ancestor` as evidently intended: past
    * the separator that ends a non-empty common ancestor, and at the start of
    * the path when the common ancestor is the root. */
  method ComponentsAfterCommonAncestor(self: RelativePath, other: RelativePath)
    returns (it: RelativePathComponents)
    ensures fresh(it) && it.Valid() && it.inner == self
    ensures it.index == Offset(self, SharedComponents(self, other))
  {
    var index := CommonAncestorSeparatorIndex(self, other);
    ghost var k := SharedComponents(self, other);
    ghost var cs := ComponentsOf(self);
    if k > 0 {
      FirstComponentNonEmpty(self);
      assert cs[..k][0] == cs[0];
      JoinNonEmpty(cs[..k]);
    }
    AccumulatedAtOffset(self, k);
    it := new RelativePathComponents(self, if index == 0 then 0 else index + 1);
  }

  /** From there the iterator's accumulated string is the common ancestor and
    * it yields exactly the components of `self` not shared with `other`, root
    * or not. The start is a character index, so its byte place is a character
    * boundary by definition (the witness is the index itself) and `next`
    * does not panic there; the work lies in the first three facts. */
  lemma AfterCommonAncestor(self: RelativePath, other: RelativePath)
    ensures var k := SharedComponents(self, other);
      && Offset(self, k) <= |self| + 1
      && Accumulated(self, Offset(self, k)) == CommonAncestorOf(self, other)
      && Remaining(self, Offset(self, k)) == ComponentsOf(self)[k..]
      && (Offset(self, k) <= |self| ==> !NextPanicsAt(self, ByteLen(self[..Offset(self, k)])))
  {
    var k := SharedComponents(self, other);
    AccumulatedAtOffset(self, k);
    RemainingFromOffset(self, k);
  }
}
