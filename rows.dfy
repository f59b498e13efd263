/** The parts of a relational table that the three stores use: a table is a
    sequence of rows in storage order, a WHERE clause is a predicate on rows. */
module Rows {
  import opened Results

  /** The rows of `s` that satisfy `p`, in table order (`SELECT ... WHERE p`). */
  function Filter<T(!new)>(s: seq<T>, p: T -> bool): (r: seq<T>)
    ensures |r| <= |s|
    ensures forall x :: x in r <==> x in s && p(x)
    decreases |s|
  {
    if s == [] then [] else (if p(s[0]) then [s[0]] else []) + Filter(s[1..], p)
  }

  /** The position of the first row that satisfies `p`. */
  function FirstIndex<T>(s: seq<T>, p: T -> bool): (r: Option<nat>)
    ensures r.Some? ==> r.value < |s| && p(s[r.value])
    ensures r.Some? ==> forall j :: 0 <= j < r.value ==> !p(s[j])
    ensures r.None? ==> forall j :: 0 <= j < |s| ==> !p(s[j])
    decreases |s|
  {
    if s == [] then None
    else if p(s[0]) then Some(0)
    else match FirstIndex(s[1..], p)
      case None => None
      case Some(i) => Some(i + 1)
  }

  /** The first row that satisfies `p` (`.where(p).first()`), if any. */
  function First<T(!new)>(s: seq<T>, p: T -> bool): (r: Option<T>)
    ensures r.Some? ==> r.value in s && p(r.value)
    ensures r.None? <==> forall x :: x in s ==> !p(x)
  {
    match FirstIndex(s, p)
    case None => None
    case Some(i) => Some(s[i])
  }

  /** The number of rows that satisfy `p`: the affected-row count that an UPDATE or
      DELETE with that WHERE clause reports. */
  function Count<T(!new)>(s: seq<T>, p: T -> bool): (n: nat)
    ensures n <= |s|
    ensures n == 0 <==> forall x :: x in s ==> !p(x)
  {
    var r := Filter(s, p);
    assert r != [] ==> r[0] in r;
    |r|
  }

  /** `UPDATE ... SET f WHERE p`: every row that satisfies `p` is replaced by `f` of it. */
  function UpdateWhere<T>(s: seq<T>, p: T -> bool, f: T -> T): (r: seq<T>)
    ensures |r| == |s|
    ensures forall i :: 0 <= i < |s| && p(s[i]) ==> r[i] == f(s[i])
    ensures forall i :: 0 <= i < |s| && !p(s[i]) ==> r[i] == s[i]
    decreases |s|
  {
    if s == [] then [] else [if p(s[0]) then f(s[0]) else s[0]] + UpdateWhere(s[1..], p, f)
  }

  /** `DELETE ... WHERE p`: the rows that do not satisfy `p`, in table order. */
  function DeleteWhere<T(!new)>(s: seq<T>, p: T -> bool): (r: seq<T>)
    ensures forall x :: x in r <==> x in s && !p(x)
    ensures |r| + Count(s, p) == |s|
    ensures r == Filter(s, x => !p(x))
    decreases |s|
  {
    if s == [] then []
    else
      assert s == [s[0]] + s[1..];
      (if p(s[0]) then [] else [s[0]]) + DeleteWhere(s[1..], p)
  }

  /** `LIMIT n`: the first `n` rows, or all of them when there are fewer. */
  function Take<T>(s: seq<T>, n: nat): (r: seq<T>)
    ensures |r| <= n && |r| <= |s|
    ensures |r| == n || r == s
    ensures forall i :: 0 <= i < |r| ==> r[i] == s[i]
  {
    if n < |s| then s[..n] else s
  }

  /** The element-wise image of a sequence under `f` (`result.map(f)`). */
  function Map<T, U>(f: T -> U, s: seq<T>): (r: seq<U>)
    ensures |r| == |s|
    ensures forall i :: 0 <= i < |s| ==> r[i] == f(s[i])
  {
    seq(|s|, i requires 0 <= i < |s| => f(s[i]))
  }

  /** An UPDATE that matches no row leaves the table as it was. */
  lemma UpdateWhereNoMatch<T(!new)>(s: seq<T>, p: T -> bool, f: T -> T)
    requires forall x :: x in s ==> !p(x)
    ensures UpdateWhere(s, p, f) == s
  {
    var r := UpdateWhere(s, p, f);
    forall i | 0 <= i < |s| ensures r[i] == s[i] {
      assert s[i] in s;
    }
  }

  /** An UPDATE whose new rows still satisfy its WHERE clause: the first matching
      row stays at its position and now holds its updated value. */
  lemma UpdateKeepsMatch<T(!new)>(s: seq<T>, p: T -> bool, f: T -> T)
    requires forall x :: p(x) ==> p(f(x))
    ensures First(UpdateWhere(s, p, f), p) == match First(s, p) case None => None case Some(x) => Some(f(x))
  {
    var r := UpdateWhere(s, p, f);
    forall i | 0 <= i < |s| ensures p(r[i]) <==> p(s[i]) {
    }
  }

  /** An UPDATE that writes the same row `c` into every matched row: when `c` still
      satisfies the WHERE clause, the first row satisfying it afterwards is `c`;
      when it does not, no row satisfies the clause any more. */
  lemma UpdateAllTo<T(!new)>(s: seq<T>, p: T -> bool, f: T -> T, c: T)
    requires forall x :: f(x) == c
    ensures Count(s, p) > 0 && p(c) ==> First(UpdateWhere(s, p, f), p) == Some(c)
    ensures !p(c) ==> First(UpdateWhere(s, p, f), p) == None
  {
    var r := UpdateWhere(s, p, f);
    if !p(c) {
      forall x | x in r ensures !p(x) {
        var i :| 0 <= i < |r| && r[i] == x;
      }
    } else if Count(s, p) > 0 {
      var x :| x in s && p(x);
      var i :| 0 <= i < |s| && s[i] == x;
      assert r[i] == c;
      var k := FirstIndex(r, p);
      assert k.Some?;
      assert p(s[k.value]);
    }
  }

  /** An UPDATE whose matched rows neither satisfy `q` before nor after leaves the
      first row satisfying `q` where it was. */
  lemma UpdateElsewhere<T(!new)>(s: seq<T>, p: T -> bool, f: T -> T, q: T -> bool)
    requires forall x :: x in s && q(x) ==> !p(x)
    requires forall x :: x in s && p(x) ==> !q(f(x))
    ensures First(UpdateWhere(s, p, f), q) == First(s, q)
  {
    var r := UpdateWhere(s, p, f);
    forall i | 0 <= i < |s| ensures q(r[i]) <==> q(s[i]) ensures q(s[i]) ==> r[i] == s[i] {
      assert s[i] in s;
    }
    var k, k' := FirstIndex(s, q), FirstIndex(r, q);
    if k.Some? {
      assert q(r[k.value]);
      assert !(k'.value < k.value) && !(k.value < k'.value);
    } else {
      assert k'.None?;
    }
  }

  /** Appending a row does not change which row is found first, unless no earlier
      row was found. */
  lemma FirstOfAppend<T(!new)>(s: seq<T>, x: T, p: T -> bool)
    ensures First(s + [x], p) == if First(s, p).Some? then First(s, p) else if p(x) then Some(x) else None
  {
    var s' := s + [x];
    var k := FirstIndex(s, p);
    var k' := FirstIndex(s', p);
    assert forall j :: 0 <= j < |s| ==> s'[j] == s[j];
    if k.Some? {
      assert p(s'[k.value]);
      assert !(k'.value < k.value) && !(k.value < k'.value);
    } else if p(x) {
      assert p(s'[|s|]);
      assert k'.value == |s|;
    }
  }
}
