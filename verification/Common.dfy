/** Small datatypes and counting facts shared by every model in this project. */
module Common {
  datatype Option<+T> = None | Some(value: T)

  datatype Result<+T, +E> = Ok(value: T) | Err(error: E)

  /** No element occurs twice. */
  predicate Distinct<T(==)>(s: seq<T>) {
    forall i, j | 0 <= i < j < |s| :: s[i] != s[j]
  }

  lemma {:induction false} DistinctCount<T>(s: seq<T>)
    requires Distinct(s)
    ensures |set x | x in s| == |s|
  {
    if s != [] {
      var t := s[..|s| - 1];
      DistinctCount(t);
      assert (set x | x in s) == (set x | x in t) + {s[|s| - 1]};
    }
  }

  lemma DistinctSize<T>(s: seq<T>, x: set<T>)
    requires Distinct(s) && forall e :: e in x <==> e in s
    ensures |x| == |s|
  {
    DistinctCount(s);
    assert x == set e | e in s;
  }

  lemma {:induction false} SubsetSize<T>(a: set<T>, b: set<T>)
    requires a <= b
    ensures |a| <= |b|
  {
    if a != {} {
      var x :| x in a;
      SubsetSize(a - {x}, b - {x});
    }
  }

  lemma {:induction false} DistinctByCount<T>(s: seq<T>)
    ensures |set x | x in s| <= |s|
    ensures |set x | x in s| == |s| <==> Distinct(s)
  {
    if s != [] {
      var t, last := s[..|s| - 1], s[|s| - 1];
      DistinctByCount(t);
      assert (set x | x in s) == (set x | x in t) + {last};
      if last in t {
        assert (set x | x in s) == (set x | x in t);
        var i :| 0 <= i < |t| && t[i] == last;
        assert s[i] == s[|s| - 1];
      } else if Distinct(t) {
        DistinctCount(s);
      } else {
        var i, j :| 0 <= i < j < |t| && t[i] == t[j];
        assert s[i] == s[j];
      }
    }
  }

  lemma {:induction false} FreshId(used: set<nat>) returns (x: nat)
    ensures forall m | m in used :: m < x
  {
    if used == {} {
      x := 0;
    } else {
      var m :| m in used;
      var y := FreshId(used - {m});
      x := if m < y then y else m + 1;
      assert forall k | k in used :: k == m || k in used - {m};
    }
  }

  lemma PrefixGrows<T>(s: seq<T>, i: nat)
    requires i < |s|
    ensures s[..i + 1] == s[..i] + [s[i]]
  {
  }

  lemma DistinctAppend<T>(a: seq<T>, b: seq<T>)
    requires Distinct(a) && Distinct(b) && forall x | x in a :: x !in b
    ensures Distinct(a + b)
  {
    var s := a + b;
    forall i, j | 0 <= i < j < |s| ensures s[i] != s[j] {
      if i < |a| <= j { assert a[i] in a && b[j - |a|] in b; }
    }
  }

  lemma DisjointCount<T>(a: set<T>, b: set<T>, x: set<T>)
    requires a !! b
    ensures |(a + b) * x| == |a * x| + |b * x|
  {
    assert (a + b) * x == a * x + b * x;
  }

  /** The elements that satisfy `f`, in order. */
  function Select<T(!new)>(s: seq<T>, f: T -> bool): (r: seq<T>)
    ensures forall x :: x in r <==> x in s && f(x)
    ensures Distinct(s) ==> Distinct(r)
  {
    if s == [] then []
    else
      var n := |s| - 1;
      if f(s[n]) then Select(s[..n], f) + [s[n]] else Select(s[..n], f)
  }

  lemma SelectSnoc<T(!new)>(s: seq<T>, x: T, f: T -> bool)
    ensures Select(s + [x], f) == if f(x) then Select(s, f) + [x] else Select(s, f)
  {
    assert (s + [x])[..|s|] == s;
  }

  lemma SelectAppendOne<T(!new)>(a: seq<T>, b: seq<T>, x: T, f: T -> bool)
    requires Select(a + b, f) == Select(a, f) + Select(b, f)
    ensures Select(a + b + [x], f) == Select(a, f) + Select(b + [x], f)
  {
    SelectSnoc(a + b, x, f);
    SelectSnoc(b, x, f);
  }

  lemma {:induction false} SelectAppend<T(!new)>(a: seq<T>, b: seq<T>, f: T -> bool)
    ensures Select(a + b, f) == Select(a, f) + Select(b, f)
    decreases |b|
  {
    if b == [] {
      assert a + b == a;
    } else {
      var n := |b| - 1;
      SelectAppend(a, b[..n], f);
      SelectAppendOne(a, b[..n], b[n], f);
      assert a + b[..n] + [b[n]] == a + b && b[..n] + [b[n]] == b;
    }
  }

  lemma {:induction false} SelectNone<T(!new)>(s: seq<T>, f: T -> bool)
    requires forall x | x in s :: !f(x)
    ensures Select(s, f) == []
  {
    if s != [] { SelectNone(s[..|s| - 1], f); }
  }

  /** White space as ECMAScript trims it. */
  predicate IsSpace(c: char) {
    var u := c as int;
    || 9 <= u <= 13 || u == 32 || u == 0xA0 || u == 0x1680 || 0x2000 <= u <= 0x200A
    || u == 0x2028 || u == 0x2029 || u == 0x202F || u == 0x205F || u == 0x3000 || u == 0xFEFF
  }

  predicate Blank(s: string) { forall c | c in s :: IsSpace(c) }
}
