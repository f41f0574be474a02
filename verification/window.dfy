/**
 * The value-level meaning of a bounded deque: what `deque(maxlen=n)` holds
 * after a series of appends is the last n items appended (or all of them,
 * when fewer than n). Pairs of parallel sequences are related by Zip.
 */
module RollingWindow {

  /** The smaller of a and b. */
  function Min(a: int, b: int): (r: int)
  {
    if a <= b then a else b
  }

  /**
   * The newest n items of s, oldest first: the suffix of s of length
   * min(|s|, n).
   */
  function Window<T>(s: seq<T>, n: nat): (w: seq<T>)
    ensures |w| == Min(|s|, n)
    ensures w == s[|s| - Min(|s|, n)..]
  {
    if |s| <= n then s else s[|s| - n..]
  }

  /** Index-wise pairing of two sequences of equal length. */
  function Zip<A, B>(a: seq<A>, b: seq<B>): (z: seq<(A, B)>)
    requires |a| == |b|
    ensures |z| == |a|
    ensures forall i :: 0 <= i < |z| ==> z[i].0 == a[i] && z[i].1 == b[i]
  {
    seq(|a|, i requires 0 <= i < |a| => (a[i], b[i]))
  }

  /** A window of at most n items is left alone by windowing it again. */
  lemma WindowOfShort<T>(s: seq<T>, n: nat)
    requires |s| <= n
    ensures Window(s, n) == s
  {
  }

  /**
   * One append to a window of at most n items: the length becomes
   * min(old length + 1, n); below capacity the item is simply added; at
   * capacity exactly the oldest item is dropped; and the new item is last
   * (unless n is 0, when nothing is ever kept).
   */
  lemma AppendOne<T>(s: seq<T>, x: T, n: nat)
    requires |s| <= n
    ensures |Window(s + [x], n)| == Min(|s| + 1, n)
    ensures |s| < n ==> Window(s + [x], n) == s + [x]
    ensures |s| == n > 0 ==> Window(s + [x], n) == s[1..] + [x]
    ensures n > 0 ==> Window(s + [x], n)[Min(|s| + 1, n) - 1] == x
    ensures n == 0 ==> Window(s + [x], n) == []
  {
  }

  /**
   * Windowing first and appending later forgets nothing that appending
   * first and windowing later would keep: a bounded deque is a window on
   * the whole history of appends.
   */
  lemma WindowAbsorbs<T>(s: seq<T>, xs: seq<T>, n: nat)
    ensures Window(Window(s, n) + xs, n) == Window(s + xs, n)
  {
    var w := Window(s, n);
    if |s| > n {
      var k := |s| - n;
      assert s + xs == s[..k] + (w + xs);
      if |w + xs| > n {
        assert (s + xs)[|s + xs| - n..] == (w + xs)[|w + xs| - n..];
      }
    }
  }

  /** Zipping two appended sequences appends the pair of new items. */
  lemma ZipAppend<A, B>(a: seq<A>, b: seq<B>, x: A, y: B)
    requires |a| == |b|
    ensures Zip(a + [x], b + [y]) == Zip(a, b) + [(x, y)]
  {
  }

  /**
   * Two parallel sequences windowed alike stay aligned: windowing each and
   * pairing them gives the window of the pairs.
   */
  lemma ZipWindow<A, B>(a: seq<A>, b: seq<B>, n: nat)
    requires |a| == |b|
    ensures |Window(a, n)| == |Window(b, n)|
    ensures Zip(Window(a, n), Window(b, n)) == Window(Zip(a, b), n)
  {
  }

  /** After n + 1 appends to an empty deque of capacity n the first item is gone and the rest remain in order. */
  lemma OverflowByOne<T>(xs: seq<T>, n: nat)
    requires |xs| == n + 1
    ensures Window(xs, n) == xs[1..]
    ensures |Window(xs, n)| == n
  {
  }
}
