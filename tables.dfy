/** Relational helpers shared by the in-memory tables: WHERE filters, keys and SQLite rowids. */
module Tables {
  import opened Wrappers

  /** The rows of `s` that satisfy `p`, in table order: a `WHERE` clause. */
  function Filter<T(!new)>(s: seq<T>, p: T -> bool): (r: seq<T>)
    ensures |r| <= |s|
  {
    if s == [] then [] else Filter(s[..|s| - 1], p) + (if p(s[|s| - 1]) then [s[|s| - 1]] else [])
  }

  /** The filtered rows are exactly the rows that pass the test. */
  lemma {:induction false} FilterMembers<T(!new)>(s: seq<T>, p: T -> bool)
    ensures forall x :: x in Filter(s, p) <==> x in s && p(x)
    decreases |s|
  {
    if s != [] {
      FilterMembers(s[..|s| - 1], p);
      assert forall x :: x in s <==> x in s[..|s| - 1] || x == s[|s| - 1];
    }
  }

  /** One more row scanned extends the filtered prefix by that row when it matches. */
  lemma FilterStep<T(!new)>(s: seq<T>, i: nat, p: T -> bool)
    requires i < |s|
    ensures Filter(s[..i + 1], p) == Filter(s[..i], p) + (if p(s[i]) then [s[i]] else [])
  {
    assert s[..i + 1][..i] == s[..i];
  }

  /** A row appended to the table is kept by the filter when it matches. */
  lemma FilterSnoc<T(!new)>(s: seq<T>, x: T, p: T -> bool)
    ensures Filter(s + [x], p) == Filter(s, p) + (if p(x) then [x] else [])
  {
    assert (s + [x])[..|s|] == s;
  }

  lemma FilterSingle<T(!new)>(x: T, p: T -> bool)
    ensures Filter([x], p) == if p(x) then [x] else []
  {
    assert [x][..0] == [];
  }

  lemma {:induction false} FilterAppend<T(!new)>(a: seq<T>, b: seq<T>, p: T -> bool)
    ensures Filter(a + b, p) == Filter(a, p) + Filter(b, p)
    decreases |b|
  {
    if b != [] {
      var b' := b[..|b| - 1];
      assert (a + b)[..|a + b| - 1] == a + b';
      FilterAppend(a, b', p);
    } else {
      assert a + b == a;
    }
  }

  /** Rows that all fail the test are filtered away completely. */
  lemma {:induction false} FilterNone<T(!new)>(s: seq<T>, p: T -> bool)
    requires forall x :: x in s ==> !p(x)
    ensures Filter(s, p) == []
    decreases |s|
  {
    if s != [] {
      FilterNone(s[..|s| - 1], p);
    }
  }

  /** Rows that all pass the test are all kept. */
  lemma {:induction false} FilterAll<T(!new)>(s: seq<T>, p: T -> bool)
    requires forall x :: x in s ==> p(x)
    ensures Filter(s, p) == s
    decreases |s|
  {
    if s != [] {
      FilterAll(s[..|s| - 1], p);
    }
  }

  /** `UPDATE ... SET f WHERE p`: every matching row is rewritten, the others stay. */
  function UpdateWhere<T>(s: seq<T>, p: T -> bool, f: T -> T): (r: seq<T>)
    ensures |r| == |s|
  {
    seq(|s|, i requires 0 <= i < |s| => if p(s[i]) then f(s[i]) else s[i])
  }

  /** The key column of a table. */
  function Keys<T>(rows: seq<T>, key: T -> int): (ks: seq<int>)
    ensures |ks| == |rows|
  {
    seq(|rows|, i requires 0 <= i < |rows| => key(rows[i]))
  }

  predicate Distinct(xs: seq<int>) {
    forall i, j :: 0 <= i < j < |xs| ==> xs[i] != xs[j]
  }

  function Largest(xs: seq<int>): (m: int)
    requires xs != []
    ensures m in xs
    ensures forall x :: x in xs ==> x <= m
  {
    if |xs| == 1 then xs[0]
    else
      var m := Largest(xs[1..]);
      assert forall x :: x in xs ==> x == xs[0] || x in xs[1..];
      if xs[0] > m then xs[0] else m
  }

  /** The rowid SQLite gives an insert that names none: one more than the largest, or 1 for an empty table. */
  function NextKey(keys: seq<int>): (k: int)
    ensures k !in keys
    ensures forall x :: x in keys ==> x < k
  {
    if keys == [] then 1 else Largest(keys) + 1
  }

  lemma KeysAppend<T>(rows: seq<T>, x: T, key: T -> int)
    ensures Keys(rows + [x], key) == Keys(rows, key) + [key(x)]
  {
  }

  /** Appending a row whose key is new keeps the key column free of duplicates. */
  lemma DistinctAppend<T>(rows: seq<T>, x: T, key: T -> int)
    requires Distinct(Keys(rows, key))
    requires key(x) !in Keys(rows, key)
    ensures Distinct(Keys(rows + [x], key))
  {
    KeysAppend(rows, x, key);
  }

  /** No two rows share a key: the PRIMARY KEY constraint. */
  predicate UniqueKeys<T>(rows: seq<T>, key: T -> int) {
    forall i, j :: 0 <= i < j < |rows| ==> key(rows[i]) != key(rows[j])
  }

  /** No two rows share a text value: a UNIQUE constraint on a name column. */
  predicate UniqueText<T>(rows: seq<T>, f: T -> string) {
    forall i, j :: 0 <= i < j < |rows| ==> f(rows[i]) != f(rows[j])
  }

  lemma UniqueKeysAppend<T>(rows: seq<T>, x: T, key: T -> int)
    requires UniqueKeys(rows, key)
    requires key(x) !in Keys(rows, key)
    ensures UniqueKeys(rows + [x], key)
  {
    forall i | 0 <= i < |rows| ensures key(rows[i]) != key(x) {
      assert Keys(rows, key)[i] == key(rows[i]);
    }
  }

  /** A filtered table keeps its keys unique. */
  lemma {:induction false} UniqueKeysFilter<T(!new)>(rows: seq<T>, p: T -> bool, key: T -> int)
    requires UniqueKeys(rows, key)
    ensures UniqueKeys(Filter(rows, p), key)
    decreases |rows|
  {
    if rows != [] {
      var init := rows[..|rows| - 1];
      var x := rows[|rows| - 1];
      assert UniqueKeys(init, key);
      UniqueKeysFilter(init, p, key);
      if p(x) {
        var f := Filter(init, p);
        FilterMembers(init, p);
        forall i | 0 <= i < |f| ensures key(f[i]) != key(x) {
          assert f[i] in init;
          var j :| 0 <= j < |init| && init[j] == f[i];
          assert rows[j] == init[j];
        }
      }
    }
  }

  /** The test of `WHERE key <> k`. */
  function KeyIsNot<T>(key: T -> int, k: int): T -> bool {
    x => key(x) != k
  }

  /** `DELETE ... WHERE key = k`. */
  function WithoutKey<T(!new)>(rows: seq<T>, key: T -> int, k: int): (r: seq<T>)
    ensures forall x :: x in r <==> x in rows && key(x) != k
  {
    FilterMembers(rows, KeyIsNot(key, k));
    Filter(rows, KeyIsNot(key, k))
  }

  /** A delete by key keeps the keys unique. */
  lemma WithoutKeyUnique<T(!new)>(rows: seq<T>, key: T -> int, k: int)
    requires UniqueKeys(rows, key)
    ensures UniqueKeys(WithoutKey(rows, key, k), key)
  {
    UniqueKeysFilter(rows, KeyIsNot(key, k), key);
  }

  /** A delete by key keeps a unique text column unique. */
  lemma WithoutKeyUniqueText<T(!new)>(rows: seq<T>, key: T -> int, k: int, f: T -> string)
    requires UniqueText(rows, f)
    ensures UniqueText(WithoutKey(rows, key, k), f)
  {
    UniqueTextFilter(rows, KeyIsNot(key, k), f);
  }

  /** With unique keys, a delete by key removes at most one row. */
  lemma {:induction false} WithoutKeyRemovesAtMostOne<T(!new)>(rows: seq<T>, key: T -> int, k: int)
    requires UniqueKeys(rows, key)
    ensures |WithoutKey(rows, key, k)| >= |rows| - 1
    decreases |rows|
  {
    if rows != [] {
      var init := rows[..|rows| - 1];
      var x := rows[|rows| - 1];
      assert UniqueKeys(init, key);
      if key(x) == k {
        forall y | y in init ensures key(y) != k {
          var j :| 0 <= j < |init| && init[j] == y;
          assert rows[j] == y;
        }
        FilterAll(init, KeyIsNot(key, k));
      } else {
        WithoutKeyRemovesAtMostOne(init, key, k);
      }
    }
  }

  /** Filtering twice is filtering once by both tests. */
  lemma {:induction false} FilterTwice<T(!new)>(s: seq<T>, p: T -> bool, q: T -> bool, both: T -> bool)
    requires forall x :: both(x) == (p(x) && q(x))
    ensures Filter(Filter(s, p), q) == Filter(s, both)
    decreases |s|
  {
    if s != [] {
      var init := s[..|s| - 1];
      var x := s[|s| - 1];
      FilterTwice(init, p, q, both);
      FilterAppend(Filter(init, p), if p(x) then [x] else [], q);
      if p(x) {
        assert Filter([x], q) == (if q(x) then [x] else []) by {
          assert [x][..0] == [];
        }
      }
    }
  }

  /** `UPDATE ... WHERE key = k` with every non-key column taken from `x`. */
  function ReplaceKey<T>(rows: seq<T>, key: T -> int, k: int, x: T): (r: seq<T>)
    requires key(x) == k
    ensures Keys(r, key) == Keys(rows, key)
    ensures forall i :: 0 <= i < |r| ==> r[i] == (if key(rows[i]) == k then x else rows[i])
  {
    seq(|rows|, i requires 0 <= i < |rows| => if key(rows[i]) == k then x else rows[i])
  }

  /**
   * How many of `xs`, inserted one after the other with auto-commit, go in before the first
   * whose key is already present; that insert fails and the batch stops there.
   */
  function InsertablePrefix<T>(rows: seq<T>, xs: seq<T>, key: T -> int): (n: nat)
    ensures n <= |xs|
    decreases |xs|
  {
    if xs == [] then 0
    else if key(xs[0]) in Keys(rows, key) then 0
    else 1 + InsertablePrefix(rows + [xs[0]], xs[1..], key)
  }

  /** The prefix that goes in keeps the keys unique. */
  lemma {:induction false} InsertablePrefixUnique<T>(rows: seq<T>, xs: seq<T>, key: T -> int)
    requires UniqueKeys(rows, key)
    ensures UniqueKeys(rows + xs[..InsertablePrefix(rows, xs, key)], key)
    decreases |xs|
  {
    var n := InsertablePrefix(rows, xs, key);
    if n == 0 {
      assert rows + xs[..0] == rows;
    } else {
      UniqueKeysAppend(rows, xs[0], key);
      InsertablePrefixUnique(rows + [xs[0]], xs[1..], key);
      assert rows + [xs[0]] + xs[1..][..n - 1] == rows + xs[..n];
    }
  }

  /** The whole batch goes in exactly when its keys are new and pairwise distinct. */
  lemma {:induction false} InsertablePrefixAll<T>(rows: seq<T>, xs: seq<T>, key: T -> int)
    ensures InsertablePrefix(rows, xs, key) == |xs| <==>
            (forall i :: 0 <= i < |xs| ==> key(xs[i]) !in Keys(rows, key)) && UniqueKeys(xs, key)
    decreases |xs|
  {
    if xs != [] {
      InsertablePrefixAll(rows + [xs[0]], xs[1..], key);
      KeysAppend(rows, xs[0], key);
      var tail := xs[1..];
      assert forall i :: 0 < i < |xs| ==> xs[i] == tail[i - 1];
      assert forall i :: 0 <= i < |tail| ==> tail[i] == xs[i + 1];
    }
  }

  /** The first row with key `k`; with unique keys, the only one. */
  function FindKey<T>(rows: seq<T>, key: T -> int, k: int): (r: Option<T>)
    ensures r.Some? ==> r.value in rows && key(r.value) == k
    ensures r.None? ==> forall i :: 0 <= i < |rows| ==> key(rows[i]) != k
  {
    if rows == [] then None
    else if key(rows[0]) == k then Some(rows[0])
    else FindKey(rows[1..], key, k)
  }

  /** Rewriting the row with key `k` keeps the keys unique. */
  lemma ReplaceKeyUnique<T>(rows: seq<T>, key: T -> int, k: int, x: T)
    requires key(x) == k
    requires UniqueKeys(rows, key)
    ensures UniqueKeys(ReplaceKey(rows, key, k, x), key)
  {
    var r := ReplaceKey(rows, key, k, x);
    forall i | 0 <= i < |r| ensures key(r[i]) == key(rows[i]) {
    }
  }

  /** Rewriting the row with key `k` to a text no other row has keeps that column unique. */
  lemma ReplaceKeyUniqueText<T>(rows: seq<T>, key: T -> int, k: int, x: T, f: T -> string)
    requires key(x) == k
    requires UniqueKeys(rows, key)
    requires UniqueText(rows, f)
    requires forall i :: 0 <= i < |rows| && key(rows[i]) != k ==> f(rows[i]) != f(x)
    ensures UniqueText(ReplaceKey(rows, key, k, x), f)
  {
  }

  /** Appending a row whose text is new keeps that column unique. */
  lemma UniqueTextAppend<T>(rows: seq<T>, x: T, f: T -> string)
    requires UniqueText(rows, f)
    requires forall i :: 0 <= i < |rows| ==> f(rows[i]) != f(x)
    ensures UniqueText(rows + [x], f)
  {
  }

  /** A delete keeps a unique text column unique. */
  lemma {:induction false} UniqueTextFilter<T(!new)>(rows: seq<T>, p: T -> bool, f: T -> string)
    requires UniqueText(rows, f)
    ensures UniqueText(Filter(rows, p), f)
    decreases |rows|
  {
    if rows != [] {
      var init := rows[..|rows| - 1];
      var x := rows[|rows| - 1];
      assert UniqueText(init, f);
      UniqueTextFilter(init, p, f);
      if p(x) {
        var fl := Filter(init, p);
        FilterMembers(init, p);
        forall i | 0 <= i < |fl| ensures f(fl[i]) != f(x) {
          assert fl[i] in init;
          var j :| 0 <= j < |init| && init[j] == fl[i];
          assert rows[j] == init[j];
        }
      }
    }
  }
}
