/**
 * The ordering of relative paths (`impl Ord for RelativePath`, src/common.rs):
 * lexicographic over the component sequences, each component compared as a
 * Rust `&str`, i.e. lexicographically by character.
 */
module CommonOrder {
  import opened Common

  datatype Ordering = Less | Equal | Greater

  function Flip(o: Ordering): Ordering {
    match o
    case Less => Greater
    case Equal => Equal
    case Greater => Less
  }

  /** `Ord for str`: the first differing character decides, and a proper
    * prefix comes first. */
  function CompareStr(a: string, b: string): (o: Ordering)
    ensures o == Equal <==> a == b
  {
    if a == [] then (if b == [] then Equal else Less)
    else if b == [] then Greater
    else if a[0] < b[0] then Less
    else if a[0] > b[0] then Greater
    else
      var o := CompareStr(a[1..], b[1..]);
      assert a == [a[0]] + a[1..] && b == [b[0]] + b[1..];
      o
  }

  lemma {:induction false} CompareStrFlip(a: string, b: string)
    ensures CompareStr(b, a) == Flip(CompareStr(a, b))
  {
    if a != [] && b != [] && a[0] == b[0] {
      CompareStrFlip(a[1..], b[1..]);
    }
  }

  lemma {:induction false} CompareStrTransitive(a: string, b: string, c: string)
    requires CompareStr(a, b) == Less && CompareStr(b, c) == Less
    ensures CompareStr(a, c) == Less
  {
    if a != [] && b != [] && c != [] && a[0] == b[0] == c[0] {
      CompareStrTransitive(a[1..], b[1..], c[1..]);
    }
  }

  /** `Iterator::cmp` over two component sequences: the first differing
    * component decides, and a proper prefix comes first. */
  function CompareComponents(a: seq<string>, b: seq<string>): (o: Ordering)
    ensures o == Equal <==> a == b
  {
    if a == [] then (if b == [] then Equal else Less)
    else if b == [] then Greater
    else
      match CompareStr(a[0], b[0])
      case Less => Less
      case Greater => Greater
      case Equal =>
        var o := CompareComponents(a[1..], b[1..]);
        assert a == [a[0]] + a[1..] && b == [b[0]] + b[1..];
        o
  }

  lemma {:induction false} CompareComponentsFlip(a: seq<string>, b: seq<string>)
    ensures CompareComponents(b, a) == Flip(CompareComponents(a, b))
  {
    if a != [] && b != [] {
      CompareStrFlip(a[0], b[0]);
      if a[0] == b[0] {
        CompareComponentsFlip(a[1..], b[1..]);
      }
    }
  }

  lemma {:induction false} CompareComponentsTransitive(a: seq<string>, b: seq<string>, c: seq<string>)
    requires CompareComponents(a, b) == Less && CompareComponents(b, c) == Less
    ensures CompareComponents(a, c) == Less
  {
    if a != [] && b != [] && c != [] {
      if CompareStr(a[0], b[0]) == Less && CompareStr(b[0], c[0]) == Less {
        CompareStrTransitive(a[0], b[0], c[0]);
      } else if a[0] == b[0] == c[0] {
        CompareComponentsTransitive(a[1..], b[1..], c[1..]);
      }
    }
  }

  /** The sequences that start with `a` are contiguous in the order: whatever
    * sorts between two of them starts with `a` as well. */
  lemma {:induction false} PrefixBetween(a: seq<string>, x: seq<string>, y: seq<string>, z: seq<string>)
    requires |a| <= |x| && a == x[..|a|] && |a| <= |z| && a == z[..|a|]
    requires CompareComponents(x, y) != Greater && CompareComponents(y, z) != Greater
    ensures |a| <= |y| && a == y[..|a|]
  {
    if a != [] {
      assert x[0] == a[0] == z[0];
      assert y != [];
      if CompareStr(x[0], y[0]) == Less {
        CompareStrFlip(x[0], y[0]);
      }
      assert y[0] == x[0];
      assert a[1..] == x[1..][..|a| - 1] && a[1..] == z[1..][..|a| - 1];
      PrefixBetween(a[1..], x[1..], y[1..], z[1..]);
      assert y[..|a|] == [y[0]] + y[1..][..|a| - 1];
    }
  }

  /** What sorts no later than `a` and shares its first `j` components is no
    * longer than `j` only if `a` is not longer either: a proper prefix of `a`
    * would sort first. */
  lemma LaterNotProperPrefix(a: seq<string>, b: seq<string>, j: nat)
    requires CompareComponents(a, b) != Greater
    requires j < |a| && j <= |b| && a[..j] == b[..j]
    ensures j < |b|
  {
    if j == |b| {
      assert b == a[..j];
      ProperPrefixIsLess(b, a);
      CompareComponentsFlip(a, b);
    }
  }

  /** A proper prefix of a component sequence sorts before it. */
  lemma {:induction false} ProperPrefixIsLess(a: seq<string>, b: seq<string>)
    requires |a| < |b| && a == b[..|a|]
    ensures CompareComponents(a, b) == Less
  {
    if a != [] {
      assert a[1..] == b[1..][..|a| - 1];
      ProperPrefixIsLess(a[1..], b[1..]);
    }
  }

  /** `RelativePath::cmp`: the component sequences in lexicographic order.
    * Two paths compare Equal exactly when they are the same string. */
  function Cmp(a: RelativePath, b: RelativePath): (r: Ordering)
    ensures r == Equal <==> a == b
  {
    JoinComponents(a);
    JoinComponents(b);
    CompareComponents(ComponentsOf(a), ComponentsOf(b))
  }

  /** `==` between a path and an iterator agrees with `cmp` on the iterator's path. */
  lemma EqualsComponentsIsCmpEqual(p: RelativePath, it: RelativePathComponents)
    requires IsRelativePath(it.inner)
    ensures EqualsComponents(p, it) <==> Cmp(p, it.inner) == Equal
  {
  }

  lemma CmpIsCompareComponents(a: RelativePath, b: RelativePath)
    ensures Cmp(a, b) == CompareComponents(ComponentsOf(a), ComponentsOf(b))
  {
  }

  lemma CmpFlip(a: RelativePath, b: RelativePath)
    ensures Cmp(b, a) == Flip(Cmp(a, b))
  {
    CompareComponentsFlip(ComponentsOf(a), ComponentsOf(b));
  }

  lemma CmpTransitive(a: RelativePath, b: RelativePath, c: RelativePath)
    requires Cmp(a, b) != Greater && Cmp(b, c) != Greater
    ensures Cmp(a, c) != Greater
    ensures Cmp(a, b) == Less || Cmp(b, c) == Less ==> Cmp(a, c) == Less
  {
    var ca, cb, cc := ComponentsOf(a), ComponentsOf(b), ComponentsOf(c);
    if Cmp(a, b) == Less && Cmp(b, c) == Less {
      CompareComponentsTransitive(ca, cb, cc);
    }
  }

  /** An ancestor (a path whose components are a proper prefix) sorts first. */
  lemma AncestorIsLess(a: RelativePath, b: RelativePath)
    requires |ComponentsOf(a)| < |ComponentsOf(b)|
    requires ComponentsOf(a) == ComponentsOf(b)[..|ComponentsOf(a)|]
    ensures Cmp(a, b) == Less && Cmp(b, a) == Greater
  {
    ProperPrefixIsLess(ComponentsOf(a), ComponentsOf(b));
    CmpFlip(a, b);
  }

  /** Sorted non-decreasingly by `cmp`, as `Vec::sort` leaves it. */
  predicate SortedByCmp(ps: seq<RelativePath>) {
    forall i :: 0 < i < |ps| ==> Cmp(ps[i - 1], ps[i]) != Greater
  }

  /** The paths of the ordering examples, spelled out component by component. */
  const ABC: RelativePath := "a" + "/" + "b" + "/" + "c"
  const ABBangC: RelativePath := "a" + "/" + "b!" + "/" + "c"
  const ABD: RelativePath := "a" + "/" + "b" + "/" + "d"
  const ABCD: RelativePath := "a" + "/" + ("b" + "/" + "c" + "/" + "d")

  /** `"a/b!/c"` sorts after `"a/b/c"` although, as plain strings, it sorts
    * before it (`'!'` precedes `'/'`). */
  lemma ComponentOrderIsNotStringOrder()
    ensures Cmp(ABBangC, ABC) == Greater
    ensures CompareStr("a/b!/c", "a/b/c") == Less
  {
    ComponentsOfThree("a", "b!", "c");
    ComponentsOfThree("a", "b", "c");
    CompareAfterSharedFirst(["a", "b!", "c"], ["a", "b", "c"]);
    var x, y := ["b!", "c"], ["b", "c"];
    assert ["a", "b!", "c"][1..] == x && ["a", "b", "c"][1..] == y;
    assert CompareStr(x[0], y[0]) == Greater;
    assert CompareStr("a/b!/c", "a/b/c") == CompareStr("/b!/c", "/b/c") == CompareStr("b!/c", "b/c");
  }

  /** Two component sequences with the same first component compare like their tails. */
  lemma CompareAfterSharedFirst(a: seq<string>, b: seq<string>)
    requires a != [] && b != [] && a[0] == b[0]
    ensures CompareComponents(a, b) == CompareComponents(a[1..], b[1..])
  {
  }

  /** Sorting `["a/b/c/d", "a/b/c", "a/b/d", "a/b/c"]` by `cmp` gives
    * `["a/b/c", "a/b/c", "a/b/c/d", "a/b/d"]`: that sequence is sorted ... */
  lemma SortExampleIsSorted()
    ensures SortedByCmp([ABC, ABC, ABCD, ABD])
  {
    AncestorSortsFirstExample();
    SiblingOrderExample();
    SortedFour(ABC, ABC, ABCD, ABD);
  }

  lemma SortedFour(a: RelativePath, b: RelativePath, c: RelativePath, d: RelativePath)
    requires Cmp(a, b) != Greater && Cmp(b, c) != Greater && Cmp(c, d) != Greater
    ensures SortedByCmp([a, b, c, d])
  {
  }

  /** ... and holds the same paths as the input. */
  lemma SortExampleIsPermutation()
    ensures multiset([ABC, ABC, ABCD, ABD]) == multiset([ABCD, ABC, ABD, ABC])
  {
  }

  lemma AncestorSortsFirstExample()
    ensures Cmp(ABC, ABCD) == Less
  {
    ComponentsOfThree("a", "b", "c");
    ComponentsOfFour("a", "b", "c", "d");
    PrefixOfSnoc(["a", "b", "c"], "d");
    AncestorIsLess(ABC, ABCD);
  }

  lemma PrefixOfSnoc(cs: seq<string>, c: string)
    ensures |cs| < |cs + [c]| && cs == (cs + [c])[..|cs|]
  {
  }

  lemma SiblingOrderExample()
    ensures Cmp(ABCD, ABD) == Less
  {
    ComponentsOfFour("a", "b", "c", "d");
    ComponentsOfThree("a", "b", "d");
    var abcd, abd := ["a", "b", "c", "d"], ["a", "b", "d"];
    CompareAfterSharedFirst(abcd, abd);
    var x, y := abcd[1..], abd[1..];
    assert x == ["b", "c", "d"] && y == ["b", "d"];
    CompareAfterSharedFirst(x, y);
    assert x[1..] == ["c", "d"] && y[1..] == ["d"];
    assert CompareStr("c", "d") == Less;
  }
}
