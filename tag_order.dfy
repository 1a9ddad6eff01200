/** The order the tag universe is sorted in. The grid compares tags with
    `localeCompare`; here that comparison is the lexicographic order on
    character codes, and the sort is an insertion sort over it. */
module TagOrder {
  import opened Seqs

  /** `a` comes no later than `b`: lexicographic comparison, a proper prefix first. */
  predicate LexLe(a: string, b: string)
    decreases |a|
  {
    |a| == 0 || (|b| > 0 && (a[0] < b[0] || (a[0] == b[0] && LexLe(a[1..], b[1..]))))
  }

  lemma {:induction false} LexLeTotal(a: string, b: string)
    ensures LexLe(a, b) || LexLe(b, a)
    decreases |a|
  {
    if |a| > 0 && |b| > 0 && a[0] == b[0] {
      LexLeTotal(a[1..], b[1..]);
    }
  }

  lemma {:induction false} LexLeAntisymmetric(a: string, b: string)
    requires LexLe(a, b) && LexLe(b, a)
    ensures a == b
    decreases |a|
  {
    if |a| > 0 {
      LexLeAntisymmetric(a[1..], b[1..]);
      assert a == [a[0]] + a[1..] && b == [b[0]] + b[1..];
    }
  }

  lemma {:induction false} LexLeTransitive(a: string, b: string, c: string)
    requires LexLe(a, b) && LexLe(b, c)
    ensures LexLe(a, c)
    decreases |a|
  {
    if |a| > 0 && a[0] == b[0] && b[0] == c[0] {
      LexLeTransitive(a[1..], b[1..], c[1..]);
    }
  }

  predicate Sorted(s: seq<string>)
  {
    forall i, j :: 0 <= i < j < |s| ==> LexLe(s[i], s[j])
  }

  /** Places `x` in front of the first element it does not come after. */
  function Insert(x: string, s: seq<string>): seq<string>
    decreases |s|
  {
    if s == [] then [x]
    else if LexLe(x, s[0]) then [x] + s
    else [s[0]] + Insert(x, s[1..])
  }

  /** `.sort((a, b) => a.localeCompare(b))`, as an insertion sort. */
  function SortTags(s: seq<string>): seq<string>
    decreases |s|
  {
    if s == [] then [] else Insert(s[0], SortTags(s[1..]))
  }

  lemma {:induction false} InsertMultiset(x: string, s: seq<string>)
    ensures multiset(Insert(x, s)) == multiset(s) + multiset{x}
    decreases |s|
  {
    if s != [] {
      assert s == [s[0]] + s[1..];
      if !LexLe(x, s[0]) {
        InsertMultiset(x, s[1..]);
      }
    }
  }

  lemma InsertElements(x: string, s: seq<string>)
    ensures forall y :: y in Insert(x, s) <==> y == x || y in s
  {
    InsertMultiset(x, s);
    forall y ensures y in Insert(x, s) <==> y == x || y in s {
      assert y in Insert(x, s) <==> y in multiset(Insert(x, s));
      assert y in s <==> y in multiset(s);
    }
  }

  lemma {:induction false} InsertProperties(x: string, s: seq<string>)
    requires Sorted(s)
    ensures Sorted(Insert(x, s))
    ensures multiset(Insert(x, s)) == multiset(s) + multiset{x}
    ensures NoDuplicates(s) && x !in s ==> NoDuplicates(Insert(x, s))
    decreases |s|
  {
    InsertMultiset(x, s);
    if s == [] {
    } else if LexLe(x, s[0]) {
      forall j | 0 < j < |s| ensures LexLe(x, s[j]) {
        LexLeTransitive(x, s[0], s[j]);
      }
    } else {
      LexLeTotal(x, s[0]);
      var rest := Insert(x, s[1..]);
      InsertProperties(x, s[1..]);
      InsertElements(x, s[1..]);
      var r := [s[0]] + rest;
      forall j | 0 < j < |r| ensures LexLe(s[0], r[j]) && (NoDuplicates(s) && x !in s ==> r[j] != s[0]) {
        assert r[j] in rest;
        if r[j] != x {
          var k :| 0 <= k < |s[1..]| && s[1..][k] == r[j];
          assert s[k + 1] == r[j];
        }
      }
    }
  }

  lemma {:induction false} SortTagsProperties(s: seq<string>)
    ensures Sorted(SortTags(s))
    ensures multiset(SortTags(s)) == multiset(s)
    ensures NoDuplicates(s) ==> NoDuplicates(SortTags(s))
    decreases |s|
  {
    if s != [] {
      SortTagsProperties(s[1..]);
      assert s == [s[0]] + s[1..];
      if NoDuplicates(s) {
        assert s[0] !in s[1..];
        assert s[0] !in multiset(SortTags(s[1..]));
      }
      InsertProperties(s[0], SortTags(s[1..]));
    }
  }

  /** Two duplicate-free sorted lists with the same elements are equal: which
      sorting algorithm produces the tag universe does not matter. */
  lemma {:induction false} SortedUnique(a: seq<string>, b: seq<string>)
    requires Sorted(a) && Sorted(b) && NoDuplicates(a) && NoDuplicates(b)
    requires forall x :: x in a <==> x in b
    ensures a == b
    decreases |a|
  {
    assert b != [] ==> b[0] in b;
    if a != [] {
      assert a[0] in a;
      assert b != [] && a[0] in b;
      var k :| 0 <= k < |b| && b[k] == a[0];
      assert b[0] in b;
      var m :| 0 <= m < |a| && a[m] == b[0];
      assert LexLe(a[0], a[m]) || m == 0;
      assert LexLe(b[0], b[k]) || k == 0;
      if m != 0 && k != 0 {
        LexLeAntisymmetric(a[0], b[0]);
      }
      assert a[0] == b[0];
      forall x ensures x in a[1..] <==> x in b[1..] {
        if x in a[1..] {
          var i :| 0 <= i < |a[1..]| && a[1..][i] == x;
          assert a[i + 1] == x && x != a[0];
          assert x in b;
          var j :| 0 <= j < |b| && b[j] == x;
          assert j != 0;
          assert b[1..][j - 1] == x;
        }
        if x in b[1..] {
          var i :| 0 <= i < |b[1..]| && b[1..][i] == x;
          assert b[i + 1] == x && x != b[0];
          assert x in a;
          var j :| 0 <= j < |a| && a[j] == x;
          assert j != 0;
          assert a[1..][j - 1] == x;
        }
      }
      SortedUnique(a[1..], b[1..]);
      assert a == [a[0]] + a[1..] && b == [b[0]] + b[1..];
    }
  }
}
