/** The array helpers the source takes from JavaScript and lodash
    (`filter`, `indexOf`, `without`, `uniq`, `intersection`, `chunk`),
    stated over Dafny sequences. */
module Seqs {

  /** `r` is obtained from `s` by deleting elements: same order, no new ones. */
  ghost predicate IsSubseq<T>(r: seq<T>, s: seq<T>)
    decreases |s|
  {
    r == [] || (s != [] && ((r[0] == s[0] && IsSubseq(r[1..], s[1..])) || IsSubseq(r, s[1..])))
  }

  ghost predicate Distinct<T>(s: seq<T>) {
    forall i, j :: 0 <= i < j < |s| ==> s[i] != s[j]
  }

  /** `Array.prototype.filter`. */
  function Filter<T>(s: seq<T>, p: T -> bool): (r: seq<T>)
    ensures |r| <= |s|
    ensures forall i :: 0 <= i < |r| ==> r[i] in s && p(r[i])
    ensures forall i :: 0 <= i < |s| && p(s[i]) ==> s[i] in r
  {
    if s == [] then [] else (if p(s[0]) then [s[0]] else []) + Filter(s[1..], p)
  }

  lemma {:induction false} FilterIsSubseq<T>(s: seq<T>, p: T -> bool)
    ensures IsSubseq(Filter(s, p), s)
  {
    if s != [] {
      FilterIsSubseq(s[1..], p);
      if p(s[0]) {
        assert Filter(s, p) == [s[0]] + Filter(s[1..], p);
        assert Filter(s, p)[1..] == Filter(s[1..], p);
      } else {
        assert Filter(s, p) == Filter(s[1..], p);
      }
    }
  }

  /** Filtering keeps every occurrence of a kept value and drops every
      occurrence of the others. */
  lemma {:induction false} FilterMultiset<T>(s: seq<T>, p: T -> bool, x: T)
    ensures multiset(Filter(s, p))[x] == if p(x) then multiset(s)[x] else 0
  {
    if s != [] {
      FilterMultiset(s[1..], p, x);
      assert s == [s[0]] + s[1..];
      assert Filter(s, p) == (if p(s[0]) then [s[0]] else []) + Filter(s[1..], p);
    }
  }

  /** Filtering distributes over concatenation. */
  lemma {:induction false} FilterConcat<T>(a: seq<T>, b: seq<T>, p: T -> bool)
    ensures Filter(a + b, p) == Filter(a, p) + Filter(b, p)
  {
    if a != [] {
      ConcatTail(a, b);
      FilterConcat(a[1..], b, p);
      var h := if p(a[0]) then [a[0]] else [];
      assert Filter(a, p) == h + Filter(a[1..], p);
      assert Filter(a + b, p) == h + Filter(a[1..] + b, p);
      ConcatAssoc(h, Filter(a[1..], p), Filter(b, p));
    } else {
      assert a + b == b;
    }
  }

  /** Two predicates that agree on every element filter alike. */
  lemma {:induction false} FilterExt<T>(s: seq<T>, p: T -> bool, q: T -> bool)
    requires forall i :: 0 <= i < |s| ==> p(s[i]) == q(s[i])
    ensures Filter(s, p) == Filter(s, q)
  {
    if s != [] {
      FilterExt(s[1..], p, q);
    }
  }

  /** Nothing passes a predicate no element satisfies. */
  lemma FilterNone<T>(s: seq<T>, p: T -> bool)
    requires forall i :: 0 <= i < |s| ==> !p(s[i])
    ensures Filter(s, p) == []
  {
  }

  /** Filtering with a predicate that holds everywhere changes nothing. */
  lemma {:induction false} FilterAll<T>(s: seq<T>, p: T -> bool)
    requires forall i :: 0 <= i < |s| ==> p(s[i])
    ensures Filter(s, p) == s
  {
    if s != [] {
      FilterAll(s[1..], p);
      assert Filter(s, p) == [s[0]] + s[1..];
    }
  }

  lemma {:induction false} IsSubseqRefl<T>(s: seq<T>)
    ensures IsSubseq(s, s)
  {
    if s != [] {
      IsSubseqRefl(s[1..]);
    }
  }

  /** `Array.prototype.indexOf`: the first position of `x`, or -1. */
  function IndexOf<T(==)>(s: seq<T>, x: T): (r: int)
    ensures -1 <= r < |s|
    ensures r == -1 <==> x !in s
    ensures r >= 0 ==> s[r] == x && forall j :: 0 <= j < r ==> s[j] != x
  {
    if s == [] then -1
    else if s[0] == x then 0
    else var k := IndexOf(s[1..], x); if k == -1 then -1 else k + 1
  }

  /** lodash `uniq`: the first occurrence of each value, in order. */
  function Uniq<T(==)>(s: seq<T>): (r: seq<T>)
    ensures |r| <= |s|
  {
    if s == [] then []
    else
      var u := Uniq(s[..|s| - 1]);
      if s[|s| - 1] in u then u else u + [s[|s| - 1]]
  }

  /** `uniq` keeps each value once, drops none and adds none. */
  lemma {:induction false} UniqSpec<T>(s: seq<T>)
    ensures Distinct(Uniq(s))
    ensures forall i :: 0 <= i < |Uniq(s)| ==> Uniq(s)[i] in s
    ensures forall i :: 0 <= i < |s| ==> s[i] in Uniq(s)
  {
    if s != [] {
      var init, x := s[..|s| - 1], s[|s| - 1];
      UniqSpec(init);
      var u := Uniq(init);
      var r := Uniq(s);
      assert r == if x in u then u else u + [x];
      forall i, j | 0 <= i < j < |r|
        ensures r[i] != r[j]
      {
        assert r[i] == u[i];
        if j == |u| {
          assert r[j] == x;
        } else {
          assert r[j] == u[j];
        }
      }
      forall i | 0 <= i < |r|
        ensures r[i] in s
      {
        if i < |u| {
          assert r[i] == u[i] && u[i] in init;
        } else {
          assert r[i] == s[|s| - 1];
        }
      }
      forall i | 0 <= i < |s|
        ensures s[i] in r
      {
        if i < |s| - 1 {
          assert s[i] == init[i] && init[i] in u;
        }
      }
    }
  }

  /** `uniq` keeps the order of first occurrences. */
  lemma {:induction false} UniqIsSubseq<T>(s: seq<T>)
    ensures IsSubseq(Uniq(s), s)
  {
    if s != [] {
      var init := s[..|s| - 1];
      UniqIsSubseq(init);
      assert s == init + [s[|s| - 1]];
      if s[|s| - 1] in Uniq(init) {
        SubseqPrefix(Uniq(init), init, [s[|s| - 1]]);
      } else {
        SubseqAppend(Uniq(init), init, s[|s| - 1]);
      }
    }
  }

  /** A non-empty sequence is its head followed by its tail. */
  lemma ConsTail<T>(s: seq<T>)
    requires s != []
    ensures s == [s[0]] + s[1..]
  {
  }

  lemma ConcatTail<T>(a: seq<T>, b: seq<T>)
    requires a != []
    ensures (a + b)[0] == a[0] && (a + b)[1..] == a[1..] + b
  {
  }

  /** A longer prefix is the shorter one plus the next element. */
  lemma TakeSnoc<T>(s: seq<T>, i: nat)
    requires i < |s|
    ensures s[..i + 1] == s[..i] + [s[i]]
  {
  }

  lemma ConcatAssoc<T>(a: seq<T>, b: seq<T>, c: seq<T>)
    ensures a + (b + c) == (a + b) + c
  {
  }

  /** Appending one element to `uniq`'s input appends it to the output
      exactly when it is new. */
  lemma UniqSnoc<T>(s: seq<T>, x: T)
    ensures Uniq(s + [x]) == if x in s then Uniq(s) else Uniq(s) + [x]
  {
    var t := s + [x];
    assert t[..|t| - 1] == s;
    UniqSpec(s);
    assert x in Uniq(s) <==> x in s by {
      if x in s {
        var k :| 0 <= k < |s| && s[k] == x;
      }
    }
  }

  /** The elements of `s` that are not in `a`, in order. */
  function Outside<T(==)>(s: seq<T>, a: seq<T>): (r: seq<T>)
    ensures |r| <= |s|
  {
    if s == [] then [] else (if s[0] in a then [] else [s[0]]) + Outside(s[1..], a)
  }

  /** `Outside` keeps exactly the elements not in `a`. */
  lemma {:induction false} OutsideSpec<T>(s: seq<T>, a: seq<T>)
    ensures forall i :: 0 <= i < |Outside(s, a)| ==> Outside(s, a)[i] in s && Outside(s, a)[i] !in a
    ensures forall i :: 0 <= i < |s| && s[i] !in a ==> s[i] in Outside(s, a)
  {
    if s != [] {
      OutsideSpec(s[1..], a);
      var h := if s[0] in a then [] else [s[0]];
      var t := Outside(s[1..], a);
      assert Outside(s, a) == h + t;
      forall i | 0 <= i < |h + t|
        ensures (h + t)[i] in s && (h + t)[i] !in a
      {
        if i >= |h| {
          assert (h + t)[i] == t[i - |h|];
        }
      }
      forall i | 0 <= i < |s| && s[i] !in a
        ensures s[i] in h + t
      {
        if i > 0 {
          assert s[i] == s[1..][i - 1];
        }
      }
    }
  }

  lemma {:induction false} OutsideSnoc<T>(s: seq<T>, x: T, a: seq<T>)
    ensures Outside(s + [x], a) == Outside(s, a) + (if x in a then [] else [x])
  {
    if s == [] {
      assert [] + [x] == [x];
      assert Outside([x], a) == (if x in a then [] else [x]) + Outside([], a);
    } else {
      assert (s + [x])[0] == s[0] && (s + [x])[1..] == s[1..] + [x];
      OutsideSnoc(s[1..], x, a);
      ConcatAssoc(if s[0] in a then [] else [s[0]], Outside(s[1..], a), if x in a then [] else [x]);
    }
  }

  /** `uniq(a.concat(b))`: the distinct elements of `a`, then those of `b`
      that are not in `a`, each in order of first occurrence. */
  lemma {:induction false} UniqConcat<T>(a: seq<T>, b: seq<T>)
    ensures Uniq(a + b) == Uniq(a) + Outside(Uniq(b), a)
  {
    if b == [] {
      assert a + b == a;
    } else {
      var b', x := b[..|b| - 1], b[|b| - 1];
      var ab' := a + b';
      assert b == b' + [x];
      assert a + b == ab' + [x];
      UniqConcat(a, b');
      var ua, ub := Uniq(a), Uniq(b');
      if x in b' {
        assert Uniq(b) == ub by { UniqSnoc(b', x); }
        assert Uniq(a + b) == Uniq(ab') by { UniqSnoc(ab', x); }
      } else if x in a {
        assert Uniq(b) == ub + [x] by { UniqSnoc(b', x); }
        assert Outside(ub + [x], a) == Outside(ub, a) by { OutsideSnoc(ub, x, a); }
        assert Uniq(a + b) == Uniq(ab') by { UniqSnoc(ab', x); }
      } else {
        assert Uniq(b) == ub + [x] by { UniqSnoc(b', x); }
        assert Outside(ub + [x], a) == Outside(ub, a) + [x] by { OutsideSnoc(ub, x, a); }
        assert Uniq(a + b) == Uniq(ab') + [x] by { UniqSnoc(ab', x); }
        ConcatAssoc(ua, Outside(ub, a), [x]);
      }
    }
  }

  lemma {:induction false} SubseqPrefix<T>(r: seq<T>, s: seq<T>, t: seq<T>)
    requires IsSubseq(r, s)
    ensures IsSubseq(r, s + t)
    decreases |s|
  {
    if r != [] {
      assert s != [];
      assert (s + t)[1..] == s[1..] + t;
      if r[0] == s[0] && IsSubseq(r[1..], s[1..]) {
        SubseqPrefix(r[1..], s[1..], t);
      } else {
        SubseqPrefix(r, s[1..], t);
      }
    }
  }

  lemma {:induction false} SubseqAppend<T>(r: seq<T>, s: seq<T>, x: T)
    requires IsSubseq(r, s)
    ensures IsSubseq(r + [x], s + [x])
    decreases |s|
  {
    if r == [] {
      SubseqEmptyTail(s, x);
      assert r + [x] == [x];
    } else {
      assert s != [];
      assert (s + [x])[1..] == s[1..] + [x];
      assert (r + [x])[1..] == r[1..] + [x];
      if r[0] == s[0] && IsSubseq(r[1..], s[1..]) {
        SubseqAppend(r[1..], s[1..], x);
      } else {
        SubseqAppend(r, s[1..], x);
      }
    }
  }

  lemma {:induction false} SubseqEmptyTail<T>(s: seq<T>, x: T)
    ensures IsSubseq([x], s + [x])
    decreases |s|
  {
    if s == [] {
      assert ([x] + [])[1..] == [];
    } else {
      assert (s + [x])[1..] == s[1..] + [x];
      SubseqEmptyTail(s[1..], x);
    }
  }

  /** Concatenation of a sequence of rows. */
  function Flatten<T>(rows: seq<seq<T>>): seq<T> {
    if rows == [] then [] else rows[0] + Flatten(rows[1..])
  }

  function SumLengths<T>(rows: seq<seq<T>>): nat {
    if rows == [] then 0 else |rows[0]| + SumLengths(rows[1..])
  }

  lemma {:induction false} FlattenLength<T>(rows: seq<seq<T>>)
    ensures |Flatten(rows)| == SumLengths(rows)
  {
    if rows != [] {
      FlattenLength(rows[1..]);
    }
  }

  lemma {:induction false} FlattenSnoc<T>(rows: seq<seq<T>>, row: seq<T>)
    ensures Flatten(rows + [row]) == Flatten(rows) + row
  {
    if rows == [] {
      assert [] + [row] == [row];
    } else {
      assert (rows + [row])[1..] == rows[1..] + [row];
      FlattenSnoc(rows[1..], row);
    }
  }

  // ---------------------------------------------------------------------
  // lodash `chunk`

  /** lodash `chunk(s, n)`: consecutive slices of `n` elements, the last one
      holding what remains; a size below 1 yields no rows. */
  function Chunk<T>(s: seq<T>, n: nat): (r: seq<seq<T>>)
    ensures |r| <= |s|
    decreases |s|
  {
    if n == 0 || s == [] then []
    else if |s| <= n then [s]
    else [s[..n]] + Chunk(s[n..], n)
  }

  lemma MulPred(k: int, n: int)
    ensures (k - 1) * n + n == k * n
  {
  }

  lemma MulAtLeast(k: int, n: int)
    requires k >= 1 && n >= 1
    ensures k * n >= n
  {
    assert k * n == (k - 1) * n + n;
    assert (k - 1) * n >= 0;
  }

  lemma DivModUnique(x: int, n: int, q: int, r: int)
    requires n >= 1 && 0 <= r < n && x == q * n + r
    ensures x / n == q && x % n == r
  {
    var q0, r0 := x / n, x % n;
    assert x == q0 * n + r0;
    assert 0 <= r0 < n;
    assert q * n - q0 * n == r0 - r;
    assert (q - q0) * n == q * n - q0 * n;
    if q > q0 {
      MulAtLeast(q - q0, n);
    } else if q < q0 {
      MulAtLeast(q0 - q, n);
    }
  }

  lemma DivSub(a: int, n: int)
    requires n >= 1 && a >= n
    ensures (a - n) / n == a / n - 1 && (a - n) % n == a % n
  {
    var q, r := a / n, a % n;
    assert a == q * n + r;
    DivModUnique(a - n, n, q - 1, r);
  }

  /** Reading the rows back in order gives the input. */
  lemma {:induction false} ChunkFlatten<T>(s: seq<T>, n: nat)
    requires n >= 1
    ensures Flatten(Chunk(s, n)) == s
    decreases |s|
  {
    if s != [] && |s| > n {
      ChunkFlatten(s[n..], n);
      assert s == s[..n] + s[n..];
    }
  }

  /** There are `ceil(|s| / n)` rows. */
  lemma {:induction false} ChunkCount<T>(s: seq<T>, n: nat)
    requires n >= 1
    ensures |Chunk(s, n)| == (|s| + n - 1) / n
    decreases |s|
  {
    if s == [] {
      DivModUnique(n - 1, n, 0, n - 1);
    } else if |s| <= n {
      DivModUnique(|s| + n - 1, n, 1, |s| - 1);
    } else {
      ChunkCount(s[n..], n);
      DivSub(|s| + n - 1, n);
    }
  }

  /** Every row but the last holds exactly `n` items; the last holds 1 to `n`. */
  lemma {:induction false} ChunkRowSizes<T>(s: seq<T>, n: nat)
    requires n >= 1
    ensures forall r :: 0 <= r < |Chunk(s, n)| ==> 1 <= |Chunk(s, n)[r]| <= n
    ensures forall r :: 0 <= r < |Chunk(s, n)| - 1 ==> |Chunk(s, n)[r]| == n
    decreases |s|
  {
    if s != [] && |s| > n {
      ChunkRowSizes(s[n..], n);
      var rows := Chunk(s, n);
      assert rows == [s[..n]] + Chunk(s[n..], n);
      forall r | 1 <= r < |rows|
        ensures rows[r] == Chunk(s[n..], n)[r - 1]
      {
      }
    }
  }

  /** The item at position `i` lands in row `i / n` at column `i % n`. */
  lemma {:induction false} ChunkAt<T>(s: seq<T>, n: nat, i: nat)
    requires n >= 1 && i < |s|
    ensures i / n < |Chunk(s, n)| && i % n < |Chunk(s, n)[i / n]|
    ensures Chunk(s, n)[i / n][i % n] == s[i]
    decreases |s|
  {
    if i < n {
      DivModUnique(i, n, 0, i);
    } else {
      DivSub(i, n);
      ChunkAt(s[n..], n, i - n);
    }
  }

  /** Row `r > 0` of a chunking is row `r - 1` of the chunking of the rest. */
  lemma ChunkRowTail<T>(s: seq<T>, n: nat, r: nat)
    requires n >= 1 && 0 < r < |Chunk(s, n)|
    ensures |s| > n && r - 1 < |Chunk(s[n..], n)| && Chunk(s, n)[r] == Chunk(s[n..], n)[r - 1]
  {
  }

  /** Conversely, row `r` column `k` holds the item at position `r * n + k`. */
  lemma {:induction false} ChunkIndex<T>(s: seq<T>, n: nat, r: nat, k: nat)
    requires n >= 1 && r < |Chunk(s, n)| && k < |Chunk(s, n)[r]|
    ensures r * n + k < |s| && Chunk(s, n)[r][k] == s[r * n + k]
    decreases |s|
  {
    if r > 0 {
      var t := s[n..];
      ChunkRowTail(s, n, r);
      var m := (r - 1) * n + k;
      assert m < |t| && Chunk(t, n)[r - 1][k] == t[m] by { ChunkIndex(t, n, r - 1, k); }
      assert m + n == r * n + k by { MulPred(r, n); }
      assert t[m] == s[m + n];
    }
  }

  /** Appending one item either opens a new row or extends the last one. */
  lemma {:induction false} ChunkSnoc<T>(s: seq<T>, x: T, n: nat)
    requires n >= 1
    ensures var c := Chunk(s, n);
      Chunk(s + [x], n) ==
        if |s| % n == 0 then c + [[x]]
        else c[..|c| - 1] + [c[|c| - 1] + [x]]
    decreases |s|
  {
    if s == [] {
      assert [] + [x] == [x];
    } else if |s| < n {
      DivModUnique(|s|, n, 0, |s|);
    } else if |s| == n {
      DivModUnique(|s|, n, 1, 0);
      assert (s + [x])[..n] == s;
      assert (s + [x])[n..] == [x];
    } else {
      ChunkSnocLong(s, x, n);
    }
  }

  lemma {:induction false} ChunkSnocLong<T>(s: seq<T>, x: T, n: nat)
    requires n >= 1 && |s| > n
    ensures var c := Chunk(s, n);
      Chunk(s + [x], n) ==
        if |s| % n == 0 then c + [[x]]
        else c[..|c| - 1] + [c[|c| - 1] + [x]]
    decreases |s|, 0
  {
    var c := Chunk(s, n);
    var tail := s[n..];
    var c' := Chunk(tail, n);
    assert c == [s[..n]] + c';
    assert (s + [x])[..n] == s[..n];
    assert (s + [x])[n..] == tail + [x];
    assert Chunk(s + [x], n) == [s[..n]] + Chunk(tail + [x], n);
    DivSub(|s|, n);
    ChunkSnoc(tail, x, n);
    assert c' != [];
    if |s| % n == 0 {
      assert Chunk(tail + [x], n) == c' + [[x]];
      assert [s[..n]] + (c' + [[x]]) == c + [[x]];
    } else {
      var k := |c'|;
      assert Chunk(tail + [x], n) == c'[..k - 1] + [c'[k - 1] + [x]];
      assert c[..|c| - 1] == [s[..n]] + c'[..k - 1];
      assert c[|c| - 1] == c'[k - 1];
    }
  }

  /** An empty input yields no rows and a non-empty one at least one. */
  lemma ChunkEmpty<T>(s: seq<T>, n: nat)
    requires n >= 1
    ensures Chunk(s, n) == [] <==> s == []
  {
  }
}
