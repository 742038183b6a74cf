/** Sequence operations with the meaning of the JavaScript array and string
    methods the pipeline uses (`filter`, `join`, `slice`, `endsWith`), and the
    prefix and substring relations the proofs state their facts with. */
module Seqs {

  /** `r` is obtained from `s` by deleting elements, keeping the rest in order. */
  predicate IsSubsequence<T(==)>(r: seq<T>, s: seq<T>)
    decreases |s|
  {
    if r == [] then true
    else if s == [] then false
    else if r[0] == s[0] then IsSubsequence(r[1..], s[1..])
    else IsSubsequence(r, s[1..])
  }

  /** `Array.prototype.filter`: the elements of `s` that satisfy `p`, in order. */
  function Filter<T(!new)>(s: seq<T>, p: T -> bool): (r: seq<T>)
    ensures |r| <= |s|
    ensures forall i :: 0 <= i < |r| ==> p(r[i])
    ensures IsSubsequence(r, s)
    decreases |s|
  {
    if s == [] then []
    else
      var rest := Filter(s[1..], p);
      if p(s[0]) then
        assert ([s[0]] + rest)[1..] == rest;
        [s[0]] + rest
      else
        rest
  }

  /** The filter keeps each element satisfying `p` as often as it occurs, and
      drops every other element. */
  lemma {:induction false} FilterMultiset<T(!new)>(s: seq<T>, p: T -> bool)
    ensures forall x :: multiset(Filter(s, p))[x] == if p(x) then multiset(s)[x] else 0
    ensures forall x :: x in Filter(s, p) <==> x in s && p(x)
    decreases |s|
  {
    if s != [] {
      FilterMultiset(s[1..], p);
      assert s == [s[0]] + s[1..];
    }
  }

  /** Filtering two elements of which only the second passes leaves that one. */
  lemma FilterPair<T(!new)>(a: T, b: T, p: T -> bool)
    requires !p(a) && p(b)
    ensures Filter([a, b], p) == [b]
  {
    var s := [a, b];
    assert s[1..] == [b] && s[1..][1..] == [];
  }

  /** A filter that keeps everything returns its input unchanged. */
  lemma {:induction false} FilterKeepsAll<T(!new)>(s: seq<T>, p: T -> bool)
    requires forall i :: 0 <= i < |s| ==> p(s[i])
    ensures Filter(s, p) == s
  {
    if s != [] {
      FilterKeepsAll(s[1..], p);
    }
  }

  /** `Array.prototype.join(sep)` on a sequence of strings. */
  function Join(parts: seq<string>, sep: string): string
    decreases |parts|
  {
    if parts == [] then ""
    else if |parts| == 1 then parts[0]
    else parts[0] + sep + Join(parts[1..], sep)
  }

  /** Joining splits at any inner boundary: everything before index `i`,
      the separator, everything from `i` on. */
  lemma {:induction false} JoinSplit(parts: seq<string>, sep: string, i: nat)
    requires 0 < i < |parts|
    ensures Join(parts, sep) == Join(parts[..i], sep) + sep + Join(parts[i..], sep)
    decreases i
  {
    if i == 1 {
      assert parts[..1] == [parts[0]];
    } else {
      JoinSplit(parts[1..], sep, i - 1);
      assert parts[1..][..i - 1] == parts[..i][1..];
      assert parts[1..][i - 1..] == parts[i..];
    }
  }

  /** Appending one more part adds the separator and that part at the end. */
  lemma JoinSnoc(parts: seq<string>, last: string, sep: string)
    requires parts != []
    ensures Join(parts + [last], sep) == Join(parts, sep) + sep + last
  {
    var all := parts + [last];
    JoinSplit(all, sep, |parts|);
    assert all[..|parts|] == parts;
    assert all[|parts|..] == [last];
  }

  /** The `i`-th part sits in the joined text right after the parts before
      it and right before the parts after it, with separators between. */
  lemma JoinAround(parts: seq<string>, sep: string, i: nat)
    requires i < |parts|
    ensures Join(parts, sep)
         == Join(parts[..i], sep) + (if 0 < i then sep else "") + parts[i]
            + (if i + 1 < |parts| then sep else "") + Join(parts[i + 1..], sep)
  {
    var tail := parts[i..];
    assert tail[0] == parts[i];
    assert tail[1..] == parts[i + 1..];
    if 0 < i {
      JoinSplit(parts, sep, i);
    } else {
      assert tail == parts;
    }
  }

  /** `String.prototype.startsWith`. */
  predicate StartsWith<T(==)>(s: seq<T>, prefix: seq<T>) {
    |prefix| <= |s| && s[..|prefix|] == prefix
  }

  /** `String.prototype.endsWith`. */
  predicate EndsWith<T(==)>(s: seq<T>, suffix: seq<T>) {
    |suffix| <= |s| && s[|s| - |suffix|..] == suffix
  }

  /** `String.prototype.includes`: `sub` occurs somewhere in `s`. */
  predicate IsInfix<T(==)>(sub: seq<T>, s: seq<T>) {
    exists i | 0 <= i <= |s| :: OccursAt(sub, s, i)
  }

  /** `sub` occurs in `s` starting at index `i`. */
  predicate OccursAt<T(==)>(sub: seq<T>, s: seq<T>, i: int) {
    0 <= i <= |s| - |sub| && s[i..i + |sub|] == sub
  }

  /** An occurrence in `s` is still one after something is prepended to `s`. */
  lemma InfixPrepend<T>(sub: seq<T>, t: seq<T>, s: seq<T>)
    requires IsInfix(sub, s)
    ensures IsInfix(sub, t + s)
  {
    var i :| 0 <= i <= |s| && OccursAt(sub, s, i);
    assert (t + s)[|t| + i..|t| + i + |sub|] == s[i..i + |sub|];
    assert OccursAt(sub, t + s, |t| + i);
  }

  /** The concatenation of a sequence of sequences, in order. */
  function Concat<T>(parts: seq<seq<T>>): seq<T>
    decreases |parts|
  {
    if parts == [] then [] else parts[0] + Concat(parts[1..])
  }

  /** Concatenation distributes over appending the lists of parts. */
  lemma {:induction false} ConcatAppend<T>(xs: seq<seq<T>>, ys: seq<seq<T>>)
    ensures Concat(xs + ys) == Concat(xs) + Concat(ys)
    decreases |xs|
  {
    if xs == [] {
      assert xs + ys == ys;
    } else {
      assert (xs + ys)[1..] == xs[1..] + ys;
      ConcatAppend(xs[1..], ys);
    }
  }

  /** Any run of consecutive parts occurs, concatenated, in the whole, right
      after the parts before it. */
  lemma ConcatRange<T>(parts: seq<seq<T>>, i: nat, j: nat)
    requires i <= j <= |parts|
    ensures Concat(parts) == Concat(parts[..i]) + Concat(parts[i..j]) + Concat(parts[j..])
    ensures OccursAt(Concat(parts[i..j]), Concat(parts), |Concat(parts[..i])|)
  {
    assert parts == parts[..i] + parts[i..j] + parts[j..];
    ConcatAppend(parts[..i] + parts[i..j], parts[j..]);
    ConcatAppend(parts[..i], parts[i..j]);
    var whole := Concat(parts);
    var a, b := Concat(parts[..i]), Concat(parts[i..j]);
    assert whole[|a|..|a| + |b|] == b;
  }

  /** Every part occurs in the concatenation. */
  lemma ConcatPart<T>(parts: seq<seq<T>>, k: nat)
    requires k < |parts|
    ensures IsInfix(parts[k], Concat(parts))
  {
    ConcatRange(parts, k, k + 1);
    var one := parts[k..k + 1];
    ConcatSingle(one);
    assert one[0] == parts[k];
  }

  /** A single part concatenates to itself. */
  lemma ConcatSingle<T>(one: seq<seq<T>>)
    requires |one| == 1
    ensures Concat(one) == one[0]
  {
    assert one[1..] == [];
    assert one[0] + [] == one[0];
  }

  /** Concatenating all parts is concatenating all but the last, then the last. */
  lemma ConcatSnoc<T>(parts: seq<seq<T>>)
    requires parts != []
    ensures Concat(parts) == Concat(parts[..|parts| - 1]) + parts[|parts| - 1]
  {
    var n := |parts|;
    assert parts == parts[..n - 1] + [parts[n - 1]];
    ConcatAppend(parts[..n - 1], [parts[n - 1]]);
    assert Concat([parts[n - 1]]) == parts[n - 1];
  }

  /** Two neighbouring parts occur together in the concatenation. */
  lemma ConcatAdjacent<T>(parts: seq<seq<T>>, k: nat)
    requires k + 1 < |parts|
    ensures IsInfix(parts[k] + parts[k + 1], Concat(parts))
  {
    ConcatRange(parts, k, k + 2);
    var pair := parts[k..k + 2];
    ConcatPair(pair);
    assert pair[0] == parts[k] && pair[1] == parts[k + 1];
  }

  /** Two parts concatenate to their sum. */
  lemma ConcatPair<T>(pair: seq<seq<T>>)
    requires |pair| == 2
    ensures Concat(pair) == pair[0] + pair[1]
  {
    assert pair[1..][1..] == [];
    assert Concat(pair[1..]) == pair[1] + [];
  }

  /** An element nested inside a concatenation occurs in it. */
  lemma InfixNested<T>(p: seq<T>, x: seq<T>, y: seq<T>, b: seq<T>, z: seq<T>, w: seq<T>, q: seq<T>)
    ensures IsInfix(b, p + (x + y + b + z + w) + q)
  {
    var s := p + (x + y + b + z + w) + q;
    var k := |p| + |x| + |y|;
    assert s[k..k + |b|] == b;
    assert OccursAt(b, s, k);
  }

  /** The end index that `slice(0, end)` uses: a negative `end` counts from
      the back, and the index is clamped to `0 .. |s|`. */
  function SliceEnd(len: nat, end: int): (k: nat)
    ensures k <= len
  {
    if end < 0 then
      (if len + end < 0 then 0 else len + end)
    else if end < len then end
    else len
  }

  /** `Array.prototype.slice(0, end)`: a prefix of `s`. */
  function SlicePrefix<T(==)>(s: seq<T>, end: int): (r: seq<T>)
    ensures StartsWith(s, r)
    ensures 0 <= end ==> |r| == if end < |s| then end else |s|
    ensures end < 0 ==> |r| == if |s| + end < 0 then 0 else |s| + end
  {
    s[..SliceEnd(|s|, end)]
  }
}
