/**
 * The JavaScript string operations the drive-link rewrite relies on:
 * `String.prototype.includes`, the first occurrence found by `indexOf`,
 * and the first two pieces of `String.prototype.split` with a string separator.
 */
module Strings {
  import opened Wrappers

  /** `p` occurs in `s` starting at position `i`. */
  predicate OccursAt(s: string, p: string, i: int)
  {
    0 <= i && i + |p| <= |s| && s[i..i + |p|] == p
  }

  /** The first position at or after `from` where `p` occurs in `s` (`s.indexOf(p, from)`). */
  function IndexFrom(s: string, p: string, from: nat): (r: Option<nat>)
    decreases |s| - from
    ensures r.Some? ==> from <= r.value && OccursAt(s, p, r.value)
    ensures r.Some? ==> forall j :: from <= j < r.value ==> !OccursAt(s, p, j)
    ensures r.None? ==> forall j :: from <= j ==> !OccursAt(s, p, j)
  {
    if from + |p| > |s| then None
    else if s[from..from + |p|] == p then Some(from)
    else IndexFrom(s, p, from + 1)
  }

  /** The position of the first occurrence of `p` in `s` (`s.indexOf(p)`). */
  function IndexOf(s: string, p: string): (r: Option<nat>)
    ensures r.Some? ==> OccursAt(s, p, r.value) && forall j :: 0 <= j < r.value ==> !OccursAt(s, p, j)
    ensures r.None? ==> forall j :: !OccursAt(s, p, j)
  {
    IndexFrom(s, p, 0)
  }

  /** `s.includes(p)`. */
  function Contains(s: string, p: string): (b: bool)
    ensures b <==> exists j :: OccursAt(s, p, j)
  {
    IndexOf(s, p).Some?
  }

  /** The text after the first occurrence of `sep` in `s`. */
  function After(s: string, sep: string): (r: string)
    requires Contains(s, sep)
    ensures |r| <= |s| - |sep|
    ensures OccursAt(s, sep, |s| - |r| - |sep|) && s[|s| - |r|..] == r
    ensures forall j :: 0 <= j < |s| - |r| - |sep| ==> !OccursAt(s, sep, j)
  {
    s[IndexOf(s, sep).value + |sep|..]
  }

  /**
   * `s.split(sep)[0]`: the text before the first occurrence of `sep`, or all of
   * `s` when `sep` does not occur. Its contract characterises it completely
   * (see SplitFirstUnique): a prefix of `s` inside which no occurrence of `sep`
   * starts, ending at the end of `s` or at an occurrence of `sep`.
   */
  function SplitFirst(s: string, sep: string): (r: string)
    ensures r <= s
    ensures forall j :: 0 <= j < |r| ==> !OccursAt(s, sep, j)
    ensures |r| == |s| || OccursAt(s, sep, |r|)
  {
    match IndexOf(s, sep)
    case Some(i) => s[..i]
    case None => s
  }

  /**
   * `s.split(sep)[1]`, defined whenever `sep` occurs in `s`: the text between
   * the first and the second occurrence of `sep`, or to the end of `s`.
   */
  function SplitSecond(s: string, sep: string): (r: string)
    requires Contains(s, sep)
    ensures r <= After(s, sep)
    ensures forall j :: 0 <= j < |r| ==> !OccursAt(After(s, sep), sep, j)
    ensures |r| == |After(s, sep)| || OccursAt(After(s, sep), sep, |r|)
    ensures sep != "" ==> !Contains(r, sep)
  {
    var a := After(s, sep);
    var r := SplitFirst(a, sep);
    PieceWithoutOccurrence(a, sep, r);
    r
  }

  /** A prefix of `a` inside which no occurrence of `sep` starts does not contain `sep`. */
  lemma PieceWithoutOccurrence(a: string, sep: string, r: string)
    requires r <= a && forall j :: 0 <= j < |r| ==> !OccursAt(a, sep, j)
    ensures sep != "" ==> !Contains(r, sep)
  {
    assert r == a[0..|r|];
    forall j | 0 <= j
      ensures sep != "" ==> !OccursAt(r, sep, j)
    {
      OccursInSlice(a, 0, |r|, sep, j);
    }
  }

  /** The first piece of a split at a character does not hold that character. */
  lemma SplitFirstLacksChar(s: string, c: char)
    ensures c !in SplitFirst(s, [c])
  {
    var r := SplitFirst(s, [c]);
    forall j | 0 <= j < |r|
      ensures r[j] != c
    {
      OccursAtSingle(s, c, j);
    }
  }

  /** A prefix that satisfies SplitFirst's contract is SplitFirst. */
  lemma SplitFirstUnique(s: string, sep: string, r: string)
    requires r <= s
    requires forall j :: 0 <= j < |r| ==> !OccursAt(s, sep, j)
    requires |r| == |s| || OccursAt(s, sep, |r|)
    ensures r == SplitFirst(s, sep)
  {
    var f := SplitFirst(s, sep);
    assert |r| < |f| ==> OccursAt(s, sep, |r|);
    assert |f| < |r| ==> OccursAt(s, sep, |f|);
  }

  /**
   * Splitting twice, first at `p` and then at the one-character separator `q`,
   * is splitting once at `q` whenever `p` does not occur before the first `q`.
   */
  lemma SplitFirstNested(s: string, p: string, q: string)
    requires |q| == 1
    requires forall j :: 0 <= j < |SplitFirst(s, q)| ==> !OccursAt(s, p, j)
    ensures SplitFirst(SplitFirst(s, p), q) == SplitFirst(s, q)
  {
    var a := SplitFirst(s, p);
    var c := SplitFirst(s, q);
    assert |a| < |c| ==> OccursAt(s, p, |a|);
    assert c <= a;
    forall j | 0 <= j < |c|
      ensures !OccursAt(a, q, j)
    {
      if OccursAt(a, q, j) {
        assert a[j..j + 1] == s[j..j + 1];
        assert OccursAt(s, q, j);
      }
    }
    if |c| < |a| {
      assert OccursAt(s, q, |c|);
      assert a[|c|..|c| + 1] == s[|c|..|c| + 1];
      assert OccursAt(a, q, |c|);
    }
    SplitFirstUnique(a, q, c);
  }

  /** The `k`-th character of an occurrence of `p` at `i` is `p[k]`. */
  lemma OccursAtChar(s: string, p: string, i: int, k: nat)
    requires k < |p|
    ensures OccursAt(s, p, i) ==> s[i + k] == p[k]
  {
    if OccursAt(s, p, i) {
      assert s[i..i + |p|][k] == p[k];
    }
  }

  /** A string that lacks one of the characters of `p` does not contain `p`. */
  lemma MissingCharacter(s: string, p: string, k: nat)
    requires k < |p| && p[k] !in s
    ensures !Contains(s, p)
  {
    forall i | 0 <= i
      ensures OccursAt(s, p, i) ==> s[i + k] == p[k]
    {
      OccursAtChar(s, p, i, k);
    }
  }

  /** `p` occurs in `a + p + b` right after `a`. */
  lemma OccursBetween(a: string, p: string, b: string)
    ensures OccursAt(a + p + b, p, |a|)
  {
    assert (a + p + b)[|a|..|a| + |p|] == p;
  }

  /** An occurrence that ends inside `a` is an occurrence in `a`. */
  lemma OccursInPrefix(a: string, b: string, p: string, j: int)
    requires j + |p| <= |a|
    ensures OccursAt(a + b, p, j) <==> OccursAt(a, p, j)
  {
    if 0 <= j {
      assert (a + b)[j..j + |p|] == a[j..j + |p|];
    }
  }

  /** An occurrence that starts after `a` is an occurrence in `b`. */
  lemma OccursInSuffix(a: string, b: string, p: string, j: int)
    requires |a| <= j
    ensures OccursAt(a + b, p, j) <==> OccursAt(b, p, j - |a|)
  {
    if j + |p| <= |a| + |b| {
      assert (a + b)[j..j + |p|] == b[j - |a|..j - |a| + |p|];
    }
  }

  /** A string in which `sep` does not occur is its own first piece. */
  lemma SplitFirstAbsent(s: string, sep: string)
    requires !Contains(s, sep)
    ensures SplitFirst(s, sep) == s
  {
  }

  /** Splitting `a + [c] + b` at the character `c`, absent from `a`, gives `a`. */
  lemma SplitFirstAtChar(a: string, c: char, b: string)
    requires c !in a
    ensures SplitFirst(a + [c] + b, [c]) == a
  {
    var s := a + [c] + b;
    forall j | 0 <= j < |a|
      ensures !OccursAt(s, [c], j)
    {
      OccursAtChar(s, [c], j, 0);
      assert s[j] == a[j];
    }
    OccursBetween(a, [c], b);
    SplitFirstUnique(s, [c], a);
  }

  /** A one-character separator occurs exactly where that character is. */
  lemma OccursAtSingle(s: string, c: char, j: int)
    requires 0 <= j < |s|
    ensures OccursAt(s, [c], j) <==> s[j] == c
  {
    assert s[j..j + 1] == [s[j]];
  }

  /**
   * `p` does not occur in `x + [c] + y` when its `k`-th character `c` occurs
   * only once there, right before a character other than `p[k + 1]`.
   */
  lemma LoneCharacter(x: string, c: char, y: string, p: string, k: nat)
    requires k + 1 < |p| && p[k] == c
    requires c !in x && c !in y
    requires y != [] && y[0] != p[k + 1]
    ensures !Contains(x + [c] + y, p)
  {
    var s := x + [c] + y;
    forall j | 0 <= j
      ensures !OccursAt(s, p, j)
    {
      OccursAtChar(s, p, j, k);
      OccursAtChar(s, p, j, k + 1);
      if j + k < |x| {
        assert s[j + k] == x[j + k];
      } else if |x| < j + k < |s| {
        assert s[j + k] == y[j + k - |x| - 1];
      } else if j + k == |x| {
        assert s[j + k + 1] == y[0];
      }
    }
  }

  /** An occurrence inside a slice of `s` is an occurrence in `s`. */
  lemma OccursInSlice(s: string, a: nat, b: nat, p: string, j: int)
    requires a <= b <= |s|
    ensures OccursAt(s[a..b], p, j) ==> OccursAt(s, p, a + j)
  {
    if OccursAt(s[a..b], p, j) {
      forall i | 0 <= i < |p|
        ensures s[a + j..a + j + |p|][i] == p[i]
      {
        assert s[a..b][j..j + |p|][i] == p[i];
      }
      assert s[a + j..a + j + |p|] == p;
    }
  }
}
