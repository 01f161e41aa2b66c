/** Pictures kept row by row in one buffer, with a fixed step between the starts of the rows. */
module Planes {

  /** `s` with the elements from `at` on replaced by `row`. */
  function Put<T>(s: seq<T>, at: nat, row: seq<T>): (r: seq<T>)
    requires at + |row| <= |s|
    ensures |r| == |s|
  {
    s[..at] + row + s[at + |row|..]
  }

  lemma PutNothing<T>(s: seq<T>, at: nat)
    requires at <= |s|
    ensures Put(s, at, []) == s
  {
  }

  lemma PutOne<T>(s: seq<T>, at: nat, row: seq<T>, v: T)
    requires at + |row| < |s|
    ensures Put(s, at, row)[at + |row| := v] == Put(s, at, row + [v])
  {
  }

  lemma PutMore<T>(s: seq<T>, at: nat, a: seq<T>, b: seq<T>)
    requires at + |a| + |b| <= |s|
    ensures Put(Put(s, at, a), at + |a|, b) == Put(s, at, a + b)
  {
    var once := Put(s, at, a);
    assert once[..at + |a|] == s[..at] + a;
    assert once[at + |a| + |b|..] == s[at + |a| + |b|..];
  }

  /** Rows that lie apart may be written in either order. */
  lemma PutApart<T>(s: seq<T>, at: nat, a: seq<T>, behind: nat, b: seq<T>)
    requires at + |a| <= behind && behind + |b| <= |s|
    ensures Put(Put(s, behind, b), at, a) == Put(Put(s, at, a), behind, b)
  {
    var lhs, rhs := Put(Put(s, behind, b), at, a), Put(Put(s, at, a), behind, b);
    forall i | 0 <= i < |s| ensures lhs[i] == rhs[i] {
      PutIndex(s, behind, b, i);
      PutIndex(Put(s, behind, b), at, a, i);
      PutIndex(s, at, a, i);
      PutIndex(Put(s, at, a), behind, b, i);
    }
  }

  lemma PutIndex<T>(s: seq<T>, at: nat, row: seq<T>, i: nat)
    requires at + |row| <= |s| && i < |s|
    ensures Put(s, at, row)[i] == if at <= i < at + |row| then row[i - at] else s[i]
  {
  }

  /** The start of row `r`. */
  function Off(step: nat, r: nat): nat {
    r * step
  }

  lemma OffAscends(step: nat, a: nat, b: nat)
    requires a <= b
    ensures Off(step, a) <= Off(step, b)
  {
    assert (b - a) * step >= 0;
  }

  lemma OffNext(step: nat, r: nat)
    ensures Off(step, r + 1) == Off(step, r) + step
  {
  }

  /** `height` rows of `length` elements lie inside `size` elements. */
  predicate Fits(size: nat, step: nat, length: nat, height: nat) {
    height > 0 ==> Off(step, height - 1) + length <= size
  }

  lemma RowFits(size: nat, step: nat, length: nat, height: nat, r: nat)
    requires Fits(size, step, length, height) && r < height
    ensures Off(step, r) + length <= size
  {
    OffAscends(step, r, height - 1);
  }

  /** All of the first `n` rows have the given length. */
  predicate Even<T>(rows: seq<seq<T>>, length: nat) {
    forall r :: 0 <= r < |rows| ==> |rows[r]| == length
  }

  /** `s` with its first `n` rows replaced. */
  function Painted<T>(s: seq<T>, step: nat, rows: seq<seq<T>>, length: nat, n: nat): (r: seq<T>)
    requires n <= |rows| && Even(rows, length) && Fits(|s|, step, length, |rows|)
    ensures |r| == |s|
    decreases n
  {
    if n == 0 then s
    else
      RowFits(|s|, step, length, |rows|, n - 1);
      Put(Painted(s, step, rows, length, n - 1), Off(step, n - 1), rows[n - 1])
  }

  /** Element `k` of row `r`. */
  lemma {:induction false} PaintedAt<T>(s: seq<T>, step: nat, rows: seq<seq<T>>, length: nat, n: nat, r: nat, k: nat)
    requires n <= |rows| && Even(rows, length) && Fits(|s|, step, length, |rows|) && length <= step
    requires r < n && k < length
    ensures Off(step, r) + k < |s| && Painted(s, step, rows, length, n)[Off(step, r) + k] == rows[r][k]
    decreases n
  {
    RowFits(|s|, step, length, |rows|, r);
    RowFits(|s|, step, length, |rows|, n - 1);
    var before := Painted(s, step, rows, length, n - 1);
    PutIndex(before, Off(step, n - 1), rows[n - 1], Off(step, r) + k);
    if r < n - 1 {
      OffAscends(step, r + 1, n - 1);
      OffNext(step, r);
      PaintedAt(s, step, rows, length, n - 1, r, k);
    }
  }

  lemma PaintedSlice<T>(s: seq<T>, step: nat, rows: seq<seq<T>>, length: nat, n: nat, r: nat, k: nat, end: nat)
    requires n <= |rows| && Even(rows, length) && Fits(|s|, step, length, |rows|) && length <= step
    requires r < n && k <= end <= length
    ensures Off(step, r) + end <= |s| && Painted(s, step, rows, length, n)[Off(step, r) + k..Off(step, r) + end]
            == rows[r][k..end]
  {
    hide Painted, Fits, Off;
    RowFits(|s|, step, length, |rows|, r);
    var after := Painted(s, step, rows, length, n);
    forall i | k <= i < end ensures after[Off(step, r) + i] == rows[r][i] {
      PaintedAt(s, step, rows, length, n, r, i);
    }
  }

  /** What lies in none of the rows stays. */
  lemma {:induction false} PaintedKeeps<T>(s: seq<T>, step: nat, rows: seq<seq<T>>, length: nat, n: nat, i: nat)
    requires n <= |rows| && Even(rows, length) && Fits(|s|, step, length, |rows|)
    requires i < |s| && forall r: nat :: r < n ==> !(Off(step, r) <= i < Off(step, r) + length)
    ensures Painted(s, step, rows, length, n)[i] == s[i]
    decreases n
  {
    if n > 0 {
      RowFits(|s|, step, length, |rows|, n - 1);
      PutIndex(Painted(s, step, rows, length, n - 1), Off(step, n - 1), rows[n - 1], i);
      PaintedKeeps(s, step, rows, length, n - 1, i);
    }
  }

  /** Two consecutive rows being written side by side. */
  function TwoRows<T>(s: seq<T>, at: nat, step: nat, a: seq<T>, b: seq<T>): (r: seq<T>)
    requires at + |a| <= |s| && at + step + |b| <= |s|
    ensures |r| == |s|
  {
    Put(Put(s, at, a), at + step, b)
  }

  lemma TwoRowsMore<T>(s: seq<T>, at: nat, step: nat, a: seq<T>, b: seq<T>, moreA: seq<T>, moreB: seq<T>)
    requires |a| + |moreA| <= step && at + step + |b| + |moreB| <= |s|
    ensures Put(Put(TwoRows(s, at, step, a, b), at + |a|, moreA), at + step + |b|, moreB)
         == TwoRows(s, at, step, a + moreA, b + moreB)
  {
    PutApart(Put(s, at, a), at + |a|, moreA, at + step, b);
    PutMore(s, at, a, moreA);
    PutMore(Put(s, at, a + moreA), at + step, b, moreB);
  }

  lemma TwoRowsStart<T>(s: seq<T>, at: nat, step: nat)
    requires at + step <= |s|
    ensures TwoRows(s, at, step, [], []) == s
  {
    PutNothing(s, at);
    PutNothing(s, at + step);
  }

  /** Rows are painted two at a time. */
  lemma PaintedTwo<T>(s: seq<T>, step: nat, rows: seq<seq<T>>, length: nat, n: nat)
    requires n + 2 <= |rows| && Even(rows, length) && Fits(|s|, step, length, |rows|)
    ensures Off(step, n) + length <= |s| && Off(step, n) + step + length <= |s|
    ensures TwoRows(Painted(s, step, rows, length, n), Off(step, n), step, rows[n], rows[n + 1])
         == Painted(s, step, rows, length, n + 2)
  {
    RowFits(|s|, step, length, |rows|, n);
    RowFits(|s|, step, length, |rows|, n + 1);
    OffNext(step, n);
    hide Off, Put, Fits;
    var once := Painted(s, step, rows, length, n + 1);
    assert Painted(s, step, rows, length, n + 2) == Put(once, Off(step, n + 1), rows[n + 1]);
  }
}
