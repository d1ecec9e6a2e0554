/**
 * Sequence operations the workspace handlers are built from, each written to
 * behave as the JavaScript array method it stands for: `indexOf`, `filter`,
 * `splice(i, 0, x)` (which clamps an index past the end), element-wise
 * `map` replacement, dnd-kit's `arrayMove`, and `join`.
 */
module Seqs {

  function Min(a: int, b: int): int { if a <= b then a else b }

  /** Number of occurrences of `x` in `s`. */
  function Count<T(==)>(s: seq<T>, x: T): nat { multiset(s)[x] }

  /** `s.indexOf(x)`: the first index holding `x`, or -1. */
  function IndexOf<T(==)>(s: seq<T>, x: T): (i: int)
    ensures -1 <= i < |s|
    ensures i == -1 <==> x !in s
    ensures 0 <= i ==> s[i] == x && x !in s[..i]
  {
    if |s| == 0 then -1
    else if s[0] == x then 0
    else
      var j := IndexOf(s[1..], x);
      assert s[1..][..if j < 0 then 0 else j] == s[1..1 + (if j < 0 then 0 else j)];
      if j == -1 then -1 else j + 1
  }

  /** `s.filter(y => y !== x)`. */
  function Filter<T(==,!new)>(s: seq<T>, x: T): (r: seq<T>)
    ensures multiset(r) == multiset(s)[x := 0]
    ensures |r| == |s| - multiset(s)[x]
  {
    if |s| == 0 then []
    else
      assert s == [s[0]] + s[1..];
      if s[0] == x then Filter(s[1..], x) else [s[0]] + Filter(s[1..], x)
  }

  /** `s.splice(i, 0, x)` on a copy: insert `x` before index `i`, or at the end when `i > |s|`. */
  function Splice<T(==)>(s: seq<T>, i: nat, x: T): (r: seq<T>)
    ensures |r| == |s| + 1
    ensures multiset(r) == multiset(s) + multiset{x}
    ensures r[Min(i, |s|)] == x
  {
    var k := Min(i, |s|);
    assert s == s[..k] + s[k..];
    s[..k] + [x] + s[k..]
  }

  /** `s.splice(i, 1)` on a copy. */
  function RemoveAt<T(==)>(s: seq<T>, i: nat): (r: seq<T>)
    requires i < |s|
    ensures |r| == |s| - 1
    ensures multiset(r) == multiset(s) - multiset{s[i]}
  {
    assert s == s[..i] + [s[i]] + s[i + 1..];
    s[..i] + s[i + 1..]
  }

  /** dnd-kit's `arrayMove(s, from, to)`: take the element at `from` out and insert it at `to`. */
  function ArrayMove<T(==)>(s: seq<T>, from: nat, to: nat): (r: seq<T>)
    requires from < |s| && to < |s|
    ensures |r| == |s|
    ensures multiset(r) == multiset(s)
    ensures r[to] == s[from]
  {
    var rest := RemoveAt(s, from);
    Splice(rest, to, s[from])
  }

  /** `s.map(y => y === a ? b : y)`. */
  function Replace<T(==,!new)>(s: seq<T>, a: T, b: T): (r: seq<T>)
    ensures |r| == |s|
    ensures forall i :: 0 <= i < |s| ==> r[i] == (if s[i] == a then b else s[i])
  {
    if |s| == 0 then []
    else
      assert s == [s[0]] + s[1..];
      [if s[0] == a then b else s[0]] + Replace(s[1..], a, b)
  }

  /** `xs.join(sep)`. */
  function Join(sep: string, xs: seq<string>): string
  {
    if |xs| == 0 then ""
    else if |xs| == 1 then xs[0]
    else xs[0] + sep + Join(sep, xs[1..])
  }

  /** Counting an element of a sequence split at its head. */
  lemma CountCons<T>(h: T, t: seq<T>, y: T)
    ensures multiset([h] + t)[y] == (if h == y then 1 else 0) + multiset(t)[y]
  {
  }

  /** Counting an element of a non-empty sequence by its head and tail. */
  lemma CountHead<T>(s: seq<T>, y: T)
    requires |s| > 0
    ensures multiset(s)[y] == (if s[0] == y then 1 else 0) + multiset(s[1..])[y]
  {
    assert s == [s[0]] + s[1..];
  }

  /** Replacing `a` by `b` leaves no `a` behind. */
  lemma {:induction false} ReplaceCountOld<T(!new)>(s: seq<T>, a: T, b: T)
    requires a != b
    ensures multiset(Replace(s, a, b))[a] == 0
  {
    if |s| > 0 {
      ReplaceCountOld(s[1..], a, b);
      CountCons(if s[0] == a then b else s[0], Replace(s[1..], a, b), a);
    }
  }

  /** Replacing `a` by `b` moves all of `a`'s occurrences over to `b`. */
  lemma {:induction false} ReplaceCountNew<T(!new)>(s: seq<T>, a: T, b: T)
    requires a != b
    ensures multiset(Replace(s, a, b))[b] == multiset(s)[a] + multiset(s)[b]
  {
    if |s| > 0 {
      ReplaceCountNew(s[1..], a, b);
      CountCons(if s[0] == a then b else s[0], Replace(s[1..], a, b), b);
      CountHead(s, a);
      CountHead(s, b);
    }
  }

  /** Replacing `a` by `b` leaves every other element's count alone. */
  lemma {:induction false} ReplaceCountOther<T(!new)>(s: seq<T>, a: T, b: T, y: T)
    requires y != a && y != b
    ensures multiset(Replace(s, a, b))[y] == multiset(s)[y]
  {
    if |s| > 0 {
      ReplaceCountOther(s[1..], a, b, y);
      CountCons(if s[0] == a then b else s[0], Replace(s[1..], a, b), y);
      CountHead(s, y);
    }
  }

  /** Replacing an absent element is the identity. */
  lemma ReplaceAbsent<T(!new)>(s: seq<T>, a: T, b: T)
    requires a !in s
    ensures Replace(s, a, b) == s
  {
  }

  /** A sequence without repeats holds each value at most once. */
  lemma {:induction false} DistinctCount<T>(s: seq<T>, x: T)
    requires forall i, j :: 0 <= i < j < |s| ==> s[i] != s[j]
    ensures Count(s, x) <= 1
  {
    if |s| > 0 {
      DistinctCount(s[1..], x);
      CountHead(s, x);
      if s[0] == x {
        assert x !in s[1..] by {
          forall k | 0 <= k < |s| - 1 ensures s[1..][k] != x {
            assert s[1..][k] == s[k + 1];
          }
        }
      }
    }
  }

  /** Concatenation is associative. */
  lemma AppendAssoc<T>(a: seq<T>, b: seq<T>, c: seq<T>)
    ensures a + (b + c) == (a + b) + c
  {
  }

  /** Splicing adds one `x` and keeps every other element's count. */
  lemma SpliceCounts<T>(s: seq<T>, i: nat, x: T)
    ensures Count(Splice(s, i, x), x) == Count(s, x) + 1
    ensures forall y :: y != x ==> Count(Splice(s, i, x), y) == Count(s, y)
  {
  }

  /** Renaming an element spliced into a sequence that did not hold it is splicing the new name instead. */
  lemma ReplaceSplice<T(!new)>(s: seq<T>, k: nat, a: T, n: T)
    requires a !in s && k <= |s|
    ensures Replace(Splice(s, k, a), a, n) == Splice(s, k, n)
  {
    var l := Replace(Splice(s, k, a), a, n);
    forall j | 0 <= j < |l| ensures l[j] == Splice(s, k, n)[j] {
      if j < |s| {
        SpliceAt(s, k, a, j);
        SpliceAt(s, k, n, j);
      } else {
        assert j == |s|;
        if k < |s| {
          assert Splice(s, k, a)[j] == s[j - 1];
          assert Splice(s, k, n)[j] == s[j - 1];
        }
      }
    }
  }

  /** Splicing at (or past) the end appends. */
  lemma SpliceEnd<T>(s: seq<T>, x: T)
    ensures Splice(s, |s|, x) == s + [x]
  {
    assert s[..|s|] == s && s[|s|..] == [];
  }

  /** Filtering distributes over concatenation, so `Filter` keeps the survivors in their relative order. */
  lemma {:induction false} FilterAppend<T(!new)>(a: seq<T>, b: seq<T>, x: T)
    ensures Filter(a + b, x) == Filter(a, x) + Filter(b, x)
  {
    if |a| == 0 {
      assert a + b == b;
    } else {
      assert (a + b)[1..] == a[1..] + b;
      FilterAppend(a[1..], b, x);
    }
  }

  /** Filtering out an absent element is the identity. */
  lemma {:induction false} FilterAbsent<T(!new)>(s: seq<T>, x: T)
    requires x !in s
    ensures Filter(s, x) == s
  {
    if |s| > 0 {
      FilterAbsent(s[1..], x);
    }
  }

  /** Filtering an inserted element back out of a sequence that did not hold it restores the sequence. */
  lemma {:induction false} FilterSplice<T(!new)>(s: seq<T>, i: nat, x: T)
    requires x !in s && i <= |s|
    ensures Filter(Splice(s, i, x), x) == s
  {
    assert Splice(s, i, x) == s[..i] + [x] + s[i..];
    FilterInserted(s[..i], s[i..], x);
    assert s[..i] + s[i..] == s;
  }

  lemma {:induction false} FilterInserted<T(!new)>(a: seq<T>, b: seq<T>, x: T)
    requires x !in a && x !in b
    ensures Filter(a + [x] + b, x) == a + b
  {
    assert Filter([x], x) == [] by {
      assert [x][1..] == [];
    }
    assert Filter(a + [x], x) == a by {
      FilterAppend(a, [x], x);
      FilterAbsent(a, x);
    }
    FilterAppend(a + [x], b, x);
    FilterAbsent(b, x);
  }

  /** Dropping one `x` from between two lists does not change what filtering `x` leaves. */
  lemma {:induction false} FilterDropOne<T(!new)>(a: seq<T>, b: seq<T>, x: T)
    ensures Filter(a + [x] + b, x) == Filter(a + b, x)
  {
    assert Filter([x], x) == [] by {
      assert [x][1..] == [];
    }
    FilterAppend(a, [x], x);
    FilterAppend(a + [x], b, x);
    FilterAppend(a, b, x);
  }

  /** Inserting one more `x` anywhere leaves the list without `x` unchanged. */
  lemma {:induction false} FilterSpliceSame<T(!new)>(s: seq<T>, i: nat, x: T)
    ensures Filter(Splice(s, i, x), x) == Filter(s, x)
  {
    var k := Min(i, |s|);
    assert Splice(s, i, x) == s[..k] + [x] + s[k..];
    FilterDropOne(s[..k], s[k..], x);
    assert s[..k] + s[k..] == s;
  }

  /** Taking out an occurrence of `x` leaves the list without `x` unchanged. */
  lemma {:induction false} FilterRemoveAtSame<T(!new)>(s: seq<T>, i: nat)
    requires i < |s|
    ensures Filter(RemoveAt(s, i), s[i]) == Filter(s, s[i])
  {
    assert s == s[..i] + [s[i]] + s[i + 1..];
    assert RemoveAt(s, i) == s[..i] + s[i + 1..];
    FilterDropOne(s[..i], s[i + 1..], s[i]);
  }

  /** `arrayMove` keeps every element other than the moved one in its relative order. */
  lemma {:induction false} ArrayMoveKeepsOthers<T(!new)>(s: seq<T>, from: nat, to: nat)
    requires from < |s| && to < |s|
    ensures Filter(ArrayMove(s, from, to), s[from]) == Filter(s, s[from])
  {
    FilterSpliceSame(RemoveAt(s, from), to, s[from]);
    FilterRemoveAtSame(s, from);
  }

  lemma SpliceAt<T>(s: seq<T>, i: nat, x: T, j: nat)
    requires j <= |s|
    ensures Splice(s, i, x)[j] == if j < Min(i, |s|) then s[j] else if j == Min(i, |s|) then x else s[j - 1]
  {
  }

  lemma RemoveAtAt<T>(s: seq<T>, i: nat, j: nat)
    requires i < |s| && j < |s| - 1
    ensures RemoveAt(s, i)[j] == if j < i then s[j] else s[j + 1]
  {
  }

  /** Each position of `arrayMove`'s result, as an explicit formula over the input. */
  lemma ArrayMoveAt<T>(s: seq<T>, from: nat, to: nat, i: nat)
    requires from < |s| && to < |s| && i < |s|
    ensures ArrayMove(s, from, to)[i] ==
      if i == to then s[from]
      else if from < to && from <= i < to then s[i + 1]
      else if to < from && to < i <= from then s[i - 1]
      else s[i]
  {
    var rest := RemoveAt(s, from);
    var r := ArrayMove(s, from, to);
    assert r == Splice(rest, to, s[from]);
    SpliceAt(rest, to, s[from], i);
    if i < to {
      RemoveAtAt(s, from, i);
    } else if i > to {
      RemoveAtAt(s, from, i - 1);
    }
  }

  /** Moving an element onto its own index leaves the sequence as it was. */
  lemma ArrayMoveSelf<T>(s: seq<T>, i: nat)
    requires i < |s|
    ensures ArrayMove(s, i, i) == s
  {
    forall k | 0 <= k < |s|
      ensures ArrayMove(s, i, i)[k] == s[k]
    {
      ArrayMoveAt(s, i, i, k);
    }
  }

  /** Where an element of `arrayMove(s, from, to)` came from. */
  function MovedFrom(from: nat, to: nat, i: nat): nat
  {
    if i == to then from
    else if from < to && from <= i < to then i + 1
    else if to < from && to < i <= from then i - 1
    else i
  }

  lemma ArrayMoveSource<T>(s: seq<T>, from: nat, to: nat, i: nat)
    requires from < |s| && to < |s| && i < |s|
    ensures MovedFrom(from, to, i) < |s|
    ensures ArrayMove(s, from, to)[i] == s[MovedFrom(from, to, i)]
  {
    ArrayMoveAt(s, from, to, i);
  }

  /** The index maps of a move and of the move back are inverse to each other. */
  lemma MovedFromInverse(from: nat, to: nat, k: nat)
    ensures MovedFrom(from, to, MovedFrom(to, from, k)) == k
  {
  }

  lemma ArrayMoveInverseAt<T>(s: seq<T>, from: nat, to: nat, k: nat)
    requires from < |s| && to < |s| && k < |s|
    ensures ArrayMove(ArrayMove(s, from, to), to, from)[k] == s[k]
  {
    var m := ArrayMove(s, from, to);
    var j := MovedFrom(to, from, k);
    assert m[j] == s[MovedFrom(from, to, j)] by {
      ArrayMoveSource(s, from, to, j);
    }
    ArrayMoveSource(m, to, from, k);
    MovedFromInverse(from, to, k);
  }

  /** Moving back from `to` to `from` undoes a move. */
  lemma ArrayMoveInverse<T>(s: seq<T>, from: nat, to: nat)
    requires from < |s| && to < |s|
    ensures ArrayMove(ArrayMove(s, from, to), to, from) == s
  {
    forall k | 0 <= k < |s|
      ensures ArrayMove(ArrayMove(s, from, to), to, from)[k] == s[k]
    {
      ArrayMoveInverseAt(s, from, to, k);
    }
  }

  /** `join` read from the other end: appending one more element adds one separator. */
  lemma {:induction false} JoinSnoc(sep: string, xs: seq<string>, y: string)
    requires |xs| > 0
    ensures Join(sep, xs + [y]) == Join(sep, xs) + sep + y
  {
    if |xs| == 1 {
      assert (xs + [y])[1..] == [y];
    } else {
      assert (xs + [y])[1..] == xs[1..] + [y];
      JoinSnoc(sep, xs[1..], y);
    }
  }

  /** With an empty separator `join` is concatenation, so it distributes over appending lists. */
  lemma {:induction false} JoinEmptyAppend(xs: seq<string>, ys: seq<string>)
    ensures Join("", xs + ys) == Join("", xs) + Join("", ys)
  {
    if |xs| == 0 {
      assert xs + ys == ys;
    } else if |xs| == 1 {
      if |ys| > 0 {
        assert (xs + ys)[1..] == ys;
      }
    } else {
      assert (xs + ys)[1..] == xs[1..] + ys;
      JoinEmptyAppend(xs[1..], ys);
    }
  }
}
