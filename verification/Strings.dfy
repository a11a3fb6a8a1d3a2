/** Substring search, windows over the end of a text, and concatenation. */
module Strings {

  /** The word `w` occurs in `t` at position `i`. */
  predicate OccursAt(w: string, t: string, i: int) {
    0 <= i <= |t| - |w| && t[i..i + |w|] == w
  }

  predicate Occurs(w: string, t: string) {
    exists i :: 0 <= i <= |t| - |w| && OccursAt(w, t, i)
  }

  /** The first position of `c`, or the length of `s`. */
  function Find(s: string, c: char): (i: nat)
    ensures i <= |s|
    ensures i < |s| ==> s[i] == c
    ensures forall j :: 0 <= j < i ==> s[j] != c
  {
    if s == "" || s[0] == c then 0 else 1 + Find(s[1..], c)
  }

  lemma {:induction false} FindAppend(a: string, c: char, b: string)
    requires c !in a
    ensures Find(a + [c] + b, c) == |a|
  {
    var s := a + [c] + b;
    assert s[|a|] == c;
    assert forall k :: 0 <= k < |a| ==> s[k] == a[k] && a[k] in a;
  }

  /** The last `n` characters of `s`, or all of it when it is shorter. */
  function LastChars(s: string, n: nat): (r: string)
    ensures |r| == if |s| < n then |s| else n
    ensures |r| <= |s| && s[|s| - |r|..] == r
    ensures |s| <= n ==> r == s
  {
    var keep := if |s| < n then |s| else n;
    s[|s| - keep..]
  }

  function Concat(parts: seq<string>): string {
    if parts == [] then "" else parts[0] + Concat(parts[1..])
  }

  lemma {:induction false} ConcatCons(s: string, parts: seq<string>)
    ensures Concat([s] + parts) == s + Concat(parts)
  {
    assert ([s] + parts)[1..] == parts;
  }

  lemma {:induction false} Assoc<T>(a: seq<T>, b: seq<T>, c: seq<T>)
    ensures a + (b + c) == (a + b) + c
  {
  }

  lemma {:induction false} HeadAndTail<T>(s: seq<T>)
    requires s != []
    ensures s == [s[0]] + s[1..]
  {
  }

  lemma {:induction false} InitAndLast<T>(s: seq<T>)
    requires s != []
    ensures s == s[..|s| - 1] + [s[|s| - 1]]
  {
  }

  lemma {:induction false} AppendNothing<T>(s: seq<T>)
    ensures s + [] == s
  {
  }

  lemma {:induction false} DropNone<T>(s: seq<T>)
    ensures s[0..] == s && s[..0] == []
  {
  }

  lemma {:induction false} TakeDrop<T>(s: seq<T>, n: nat)
    requires n <= |s|
    ensures s[..n] + s[n..] == s
  {
  }

  lemma {:induction false} DropAll<T>(s: seq<T>)
    ensures s[|s|..] == []
  {
  }

  lemma {:induction false} DropPast<T>(a: seq<T>, b: seq<T>, k: nat)
    requires |a| <= k <= |a| + |b|
    ensures (a + b)[k..] == b[k - |a|..]
  {
  }

  lemma {:induction false} TakeDropTail<T>(s: seq<T>, m: nat)
    requires 0 < m <= |s|
    ensures s[1..][m - 1..] == s[m..] && s[..m] == [s[0]] + s[1..][..m - 1]
  {
  }

  lemma {:induction false} PrefixIsTake<T>(a: seq<T>, s: seq<T>)
    requires a <= s
    ensures a == s[0..|a|]
  {
  }

  lemma {:induction false} OccursFirst(w: string, t: string)
    requires w <= t
    ensures OccursAt(w, t, 0)
  {
    assert t[0..|w|] == w;
  }

  lemma {:induction false} EmptyFirst<T>(s: seq<T>)
    ensures [] + s == s
  {
  }

  lemma {:induction false} ConcatHead(seen: string, parts: seq<string>)
    requires parts != []
    ensures seen + Concat(parts) == (seen + parts[0]) + Concat(parts[1..])
  {
  }

  lemma {:induction false} ConcatAppend(a: seq<string>, b: seq<string>)
    ensures Concat(a + b) == Concat(a) + Concat(b)
  {
    if a == [] {
      assert a + b == b;
    } else {
      var rest := a[1..];
      ConcatAppend(rest, b);
      assert (a + b)[0] == a[0] && (a + b)[1..] == rest + b;
      Assoc(a[0], Concat(rest), Concat(b));
    }
  }

  lemma {:induction false} ConcatSnoc(a: seq<string>, s: string)
    ensures Concat(a + [s]) == Concat(a) + s
  {
    ConcatAppend(a, [s]);
    assert Concat([s]) == s + "";
  }

  lemma {:induction false} ConcatTake(a: seq<string>, k: nat)
    requires k < |a|
    ensures Concat(a[..k + 1]) == Concat(a[..k]) + a[k]
  {
    assert a[..k + 1] == a[..k] + [a[k]];
    ConcatSnoc(a[..k], a[k]);
  }

  lemma {:induction false} ConcatTakeLength(a: seq<string>, k: nat)
    requires k < |a|
    ensures |Concat(a[..k + 1])| == |Concat(a[..k])| + |a[k]|
  {
    ConcatTake(a, k);
  }

  lemma {:induction false} ConcatPair(x: string, y: string)
    ensures Concat([x, y]) == x + y
  {
    assert [x, y][1..] == [y] && [y][1..] == [];
    assert Concat([y]) == y + "" == y;
  }

  lemma {:induction false} OccursAtLeft(w: string, a: string, b: string, i: int)
    requires 0 <= i <= |a| - |w|
    ensures OccursAt(w, a + b, i) <==> OccursAt(w, a, i)
  {
    assert (a + b)[i..i + |w|] == a[i..i + |w|];
  }

  lemma {:induction false} OccursAtRight(w: string, a: string, b: string, i: int)
    requires |a| <= i
    ensures OccursAt(w, a + b, i) <==> OccursAt(w, b, i - |a|)
  {
    if i <= |a + b| - |w| {
      assert (a + b)[i..i + |w|] == b[i - |a|..i - |a| + |w|];
    }
  }

  /** Every character a word covers is one of its characters. */
  lemma {:induction false} OccursChar(w: string, t: string, i: int, k: int)
    requires OccursAt(w, t, i) && i <= k < i + |w|
    ensures t[k] in w
  {
    assert t[i..i + |w|][k - i] == t[k];
  }

  lemma {:induction false} OccursCharIn(w: string, t: string, i: int, j: int)
    requires OccursAt(w, t, i) && 0 <= j < |w|
    ensures w[j] in t
  {
    assert t[i..i + |w|][j] == t[i + j];
  }

  /** A word found in a piece is found in the whole. */
  lemma {:induction false} OccursInside(w: string, a: string, t: string, b: string)
    requires Occurs(w, t)
    ensures Occurs(w, a + t + b)
  {
    var i :| 0 <= i <= |t| - |w| && OccursAt(w, t, i);
    OccursAtRight(w, a, t, i + |a|);
    OccursAtLeft(w, a + t, b, i + |a|);
    assert OccursAt(w, a + t + b, i + |a|);
  }

  lemma {:induction false} OccursTransitive(u: string, w: string, t: string)
    requires Occurs(u, w) && Occurs(w, t)
    ensures Occurs(u, t)
  {
    var i :| 0 <= i <= |t| - |w| && OccursAt(w, t, i);
    OccursInside(u, t[..i], w, t[i + |w|..]);
    assert t == t[..i] + w + t[i + |w|..];
  }
}
