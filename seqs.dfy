/** Facts about sequence concatenation and slicing used throughout the model. */
module Seqs {

  lemma HeadTailAppend<T>(m: seq<T>, d: seq<T>)
    requires m != []
    ensures [m[0]] + (m[1..] + d) == m + d
  {
    assert m == [m[0]] + m[1..];
  }

  /** Moving the head of `m` to the end of `a` keeps the concatenation. */
  lemma ShiftOne<T>(a: seq<T>, m: seq<T>)
    requires m != []
    ensures (a + [m[0]]) + m[1..] == a + m
  {
    assert m == [m[0]] + m[1..];
  }

  lemma SplitAt<T>(a: seq<T>, b: seq<T>, s: seq<T>)
    requires a + b == s
    ensures a == s[..|a|] && b == s[|a|..]
  {
  }

  lemma Assoc<T>(a: seq<T>, b: seq<T>, c: seq<T>)
    ensures a + b + c == a + (b + c)
  {
  }

  /** A nonempty `a` in front of `b`: its head, then its tail in front of `b`. */
  lemma ConsSplit<T>(a: seq<T>, b: seq<T>)
    requires a != []
    ensures (a + b)[0] == a[0] && (a + b)[1..] == a[1..] + b
    ensures a + b == [a[0]] + (a[1..] + b)
  {
    assert a == [a[0]] + a[1..];
  }

  lemma ConsAssoc<T>(a: seq<T>, x: T, b: seq<T>)
    ensures a + ([x] + b) == (a + [x]) + b
  {
  }

  /** A suffix of a suffix is a suffix. */
  lemma SuffixOfSuffix<T>(s: seq<T>, k: nat, rest: seq<T>)
    requires k <= |s| && |rest| <= |s| - k && rest == s[k..][|s| - k - |rest|..]
    ensures rest == s[|s| - |rest|..]
  {
    assert s[k..][|s| - k - |rest|..] == s[|s| - |rest|..];
  }

  /** Where the pieces of `a x b y c z d` stand in it. */
  lemma Pieces<T>(a: seq<T>, x: T, b: seq<T>, y: T, c: seq<T>, z: T, d: seq<T>)
    ensures var s := a + [x] + b + [y] + c + [z] + d;
      var i := |a|;
      var j := i + 1 + |b|;
      var k := j + 1 + |c|;
      && |s| == k + 1 + |d|
      && s[..i] == a && s[i] == x && s[i + 1..j] == b && s[j] == y
      && s[j + 1..k] == c && s[k] == z && s[k + 1..|s|] == d
  {
    var s := a + [x] + b + [y] + c + [z] + d;
    var i := |a|;
    var j := i + 1 + |b|;
    var k := j + 1 + |c|;
    assert s == a + ([x] + b + [y] + c + [z] + d);
    assert s[i + 1..] == b + ([y] + c + [z] + d);
    assert s[j + 1..] == c + ([z] + d);
  }
}
