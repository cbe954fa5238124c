/** The parts of Go's `strings` and `sort` packages that the policy-rules
    command relies on: the order of `strings.Compare`, `strings.Join` with a
    one-character separator, and (as the inverse that shows a joined column
    loses nothing) `strings.Split`. */
module Text {
  import opened Sorting

  /** `strings.Compare(a, b) < 0`. Go compares bytes; on valid UTF-8 the byte
      order is the order of code points, so comparing Dafny's characters
      (Unicode scalar values) one by one gives the same answer there. */
  predicate StrLess(a: string, b: string)
  {
    if a == [] then b != []
    else b != [] && (a[0] < b[0] || (a[0] == b[0] && StrLess(a[1..], b[1..])))
  }

  lemma {:induction false} StrLessAsymmetric(a: string, b: string)
    ensures StrLess(a, b) ==> !StrLess(b, a)
  {
    if a != [] && b != [] && a[0] == b[0] {
      StrLessAsymmetric(a[1..], b[1..]);
    }
  }

  lemma StrLessIsAsymmetric()
    ensures Asymmetric(StrLess)
  {
    forall a, b ensures StrLess(a, b) ==> !StrLess(b, a) {
      StrLessAsymmetric(a, b);
    }
  }

  /** The order is total: two different strings are always ordered one way. */
  lemma {:induction false} StrLessTotal(a: string, b: string)
    ensures a == b || StrLess(a, b) || StrLess(b, a)
  {
    if a != [] && b != [] && a[0] == b[0] {
      StrLessTotal(a[1..], b[1..]);
      assert a == [a[0]] + a[1..] && b == [b[0]] + b[1..];
    }
  }

  lemma {:induction false} StrLessTransitive(a: string, b: string, c: string)
    ensures StrLess(a, b) && StrLess(b, c) ==> StrLess(a, c)
  {
    if a != [] && b != [] && c != [] {
      StrLessTransitive(a[1..], b[1..], c[1..]);
    }
  }

  /** "Not less" (that is, at most) is transitive too. */
  lemma NotLessTransitive(a: string, b: string, c: string)
    requires !StrLess(b, a) && !StrLess(c, b)
    ensures !StrLess(c, a)
  {
    StrLessTotal(a, b);
    StrLessTotal(b, c);
    StrLessTransitive(a, b, c);
    StrLessAsymmetric(a, c);
  }

  /** A sorted sequence is ordered between any two positions, not only
      between neighbours. */
  lemma {:induction false} SortedPairwise(s: seq<string>, i: nat, j: nat)
    requires SortedBy(s, StrLess) && i <= j < |s|
    ensures !StrLess(s[j], s[i])
    decreases j - i
  {
    if i < j {
      SortedPairwise(s, i, j - 1);
      NotLessTransitive(s[i], s[j - 1], s[j]);
    } else {
      StrLessAsymmetric(s[i], s[i]);
    }
  }

  /** Inserts `x` before the first element of a sorted `s` that is not less
      than it. */
  function Insert(x: string, s: seq<string>): (r: seq<string>)
    requires SortedBy(s, StrLess)
    ensures SortedBy(r, StrLess)
    ensures multiset(r) == multiset(s) + multiset{x}
    ensures r[0] == x || (s != [] && r[0] == s[0])
  {
    if s == [] || !StrLess(s[0], x) then [x] + s
    else
      StrLessAsymmetric(s[0], x);
      assert s == [s[0]] + s[1..];
      [s[0]] + Insert(x, s[1..])
  }

  /** The reference for what `sort.Strings` leaves in a slice. */
  function Sort(s: seq<string>): (r: seq<string>)
    ensures SortedBy(r, StrLess)
    ensures multiset(r) == multiset(s)
  {
    if s == [] then []
    else
      assert s == [s[0]] + s[1..];
      Insert(s[0], Sort(s[1..]))
  }

  /** Under a total order there is only one sorted arrangement of a multiset,
      so whatever sort routine runs, the sorted strings are `Sort(s)`. */
  lemma {:induction false} SortedUnique(u: seq<string>, v: seq<string>)
    requires SortedBy(u, StrLess) && SortedBy(v, StrLess)
    requires multiset(u) == multiset(v)
    ensures u == v
    decreases |u|
  {
    assert |u| == |multiset(u)| == |multiset(v)| == |v|;
    if u != [] {
      SortedHeadsEqual(u, v);
      SameTails(u, v);
      SortedUnique(u[1..], v[1..]);
    }
  }

  /** Two sorted arrangements of one multiset start with the same string:
      each head is at most every element of the other. */
  lemma SortedHeadsEqual(u: seq<string>, v: seq<string>)
    requires SortedBy(u, StrLess) && SortedBy(v, StrLess)
    requires multiset(u) == multiset(v) && u != [] && v != []
    ensures u[0] == v[0]
  {
    assert u[0] in multiset(v) && v[0] in multiset(u);
    var k :| 0 <= k < |v| && v[k] == u[0];
    var m :| 0 <= m < |u| && u[m] == v[0];
    SortedPairwise(v, 0, k);
    SortedPairwise(u, 0, m);
    StrLessTotal(u[0], v[0]);
  }

  /** Removing equal heads from equal multisets leaves equal multisets. */
  lemma SameTails(u: seq<string>, v: seq<string>)
    requires multiset(u) == multiset(v) && u != [] && v != [] && u[0] == v[0]
    ensures multiset(u[1..]) == multiset(v[1..])
  {
    assert u == [u[0]] + u[1..] && v == [v[0]] + v[1..];
    assert multiset(u[1..]) == multiset(u) - multiset{u[0]};
    assert multiset(v[1..]) == multiset(v) - multiset{v[0]};
  }

  lemma SortSingle(a: string)
    ensures Sort([a]) == [a]
  {
    assert [a][1..] == [];
  }

  lemma SortPair(a: string, b: string)
    requires StrLess(a, b)
    ensures Sort([a, b]) == [a, b]
  {
    assert [a, b][1..] == [b];
    SortSingle(b);
  }

  /** Sorting what is already sorted changes nothing: a rule slice that was
      sorted in place once renders the same when it is sorted again. */
  lemma SortIdempotent(s: seq<string>)
    ensures Sort(Sort(s)) == Sort(s)
  {
    SortedUnique(Sort(Sort(s)), Sort(s));
  }

  /** `strings.Join(xs, string(sep))`. */
  function Join(xs: seq<string>, sep: char): string
  {
    if xs == [] then ""
    else if |xs| == 1 then xs[0]
    else xs[0] + [sep] + Join(xs[1..], sep)
  }

  /** `strings.Split(s, string(sep))`: the pieces between separators; an
      empty `s` gives one empty piece. */
  function Split(s: string, sep: char): (pieces: seq<string>)
    ensures |pieces| >= 1
  {
    if s == [] then [""]
    else if s[0] == sep then [""] + Split(s[1..], sep)
    else
      var rest := Split(s[1..], sep);
      [[s[0]] + rest[0]] + rest[1..]
  }

  lemma {:induction false} SplitWithoutSeparator(x: string, sep: char)
    requires sep !in x
    ensures Split(x, sep) == [x]
  {
    if x != [] {
      SplitWithoutSeparator(x[1..], sep);
      assert x == [x[0]] + x[1..];
    }
  }

  lemma {:induction false} SplitAtFirstSeparator(x: string, rest: string, sep: char)
    requires sep !in x
    ensures Split(x + [sep] + rest, sep) == [x] + Split(rest, sep)
  {
    var s := x + [sep] + rest;
    if x == [] {
      assert s[1..] == rest;
    } else {
      assert s[1..] == x[1..] + [sep] + rest;
      SplitAtFirstSeparator(x[1..], rest, sep);
      assert x == [x[0]] + x[1..];
    }
  }

  /** Joining pieces that do not contain the separator and splitting the
      result gives the pieces back. */
  lemma {:induction false} SplitJoin(xs: seq<string>, sep: char)
    requires xs != []
    requires forall i :: 0 <= i < |xs| ==> sep !in xs[i]
    ensures Split(Join(xs, sep), sep) == xs
  {
    if |xs| == 1 {
      SplitWithoutSeparator(xs[0], sep);
    } else {
      SplitJoin(xs[1..], sep);
      SplitAtFirstSeparator(xs[0], Join(xs[1..], sep), sep);
      assert xs == [xs[0]] + xs[1..];
    }
  }

  /** Splitting and joining again gives back any string. */
  lemma {:induction false} JoinSplit(s: string, sep: char)
    ensures Join(Split(s, sep), sep) == s
  {
    if s != [] {
      JoinSplit(s[1..], sep);
      var rest := Split(s[1..], sep);
      if s[0] == sep {
        assert ([""] + rest)[1..] == rest;
      } else {
        var pieces := [[s[0]] + rest[0]] + rest[1..];
        assert pieces[1..] == rest[1..];
        if |rest| > 1 {
          assert rest == [rest[0]] + rest[1..];
        }
      }
      assert s == [s[0]] + s[1..];
    }
  }
}
