/** Shared vocabulary of the backend model: optional values, results, row
    identifiers and the two queries every repository offers (`find` with a
    `where` filter, and `findOne`). */
module Common {

  datatype Option<T> = None | Some(value: T)

  datatype Result<T, E> = Ok(value: T) | Err(error: E)

  /** Primary keys. The database generates UUIDs; a table here draws them
      from a counter, since only their freshness matters. */
  type Id = nat

  /** The rows of `s` that satisfy `p`, in table order: what a repository's
      `find({ where })` returns. Every row that matches is kept as often as
      it occurs, and nothing else is kept. */
  function Filter<T(==,!new)>(s: seq<T>, p: T -> bool): (r: seq<T>)
    ensures |r| <= |s|
    ensures forall x :: x in r <==> x in s && p(x)
    ensures forall x :: multiset(r)[x] == if p(x) then multiset(s)[x] else 0
  {
    if s == [] then []
    else
      assert s == [s[0]] + s[1..];
      (if p(s[0]) then [s[0]] else []) + Filter(s[1..], p)
  }

  /** Filtering commutes with concatenation: the order of the rows that are
      kept is the order of the table. */
  lemma {:induction false} FilterAppend<T(!new)>(a: seq<T>, b: seq<T>, p: T -> bool)
    ensures Filter(a + b, p) == Filter(a, p) + Filter(b, p)
  {
    if a == [] {
      assert a + b == b;
    } else {
      assert (a + b)[1..] == a[1..] + b;
      FilterAppend(a[1..], b, p);
    }
  }

  /** The first row of `s` that satisfies `p`: what a repository's
      `findOne({ where })` returns, `None` standing for `null`. */
  function FindFirst<T>(s: seq<T>, p: T -> bool): (r: Option<T>)
    ensures r.None? <==> forall i :: 0 <= i < |s| ==> !p(s[i])
    ensures r.Some? ==> exists i :: 0 <= i < |s| && s[i] == r.value && p(r.value)
                                    && forall j :: 0 <= j < i ==> !p(s[j])
  {
    if s == [] then None
    else if p(s[0]) then Some(s[0])
    else
      var r := FindFirst(s[1..], p);
      assert r.Some? ==> exists i :: 1 <= i < |s| && s[i] == r.value && p(r.value)
                                     && forall j :: 1 <= j < i ==> !p(s[j]);
      r
  }

  /** The keys of the rows are pairwise distinct and all below `next`, the
      key the table hands out to its next new row. */
  predicate KeysFresh<T>(s: seq<T>, key: T -> Id, next: Id)
  {
    && (forall i, j :: 0 <= i < j < |s| ==> key(s[i]) != key(s[j]))
    && (forall i :: 0 <= i < |s| ==> key(s[i]) < next)
  }

  /** Appending a row keyed with `next` and advancing the counter keeps
      keys distinct and fresh. */
  lemma AppendKeepsKeysFresh<T>(s: seq<T>, key: T -> Id, next: Id, x: T)
    requires KeysFresh(s, key, next)
    requires key(x) == next
    ensures KeysFresh(s + [x], key, next + 1)
  {
    var t := s + [x];
    forall i, j | 0 <= i < j < |t| ensures key(t[i]) != key(t[j]) {
      if j == |s| {
        assert key(t[i]) < next;
      }
    }
  }

  /** Keys are unique: two rows with the same key are the same row. */
  lemma KeyDeterminesRow<T>(s: seq<T>, key: T -> Id, next: Id, x: T, y: T)
    requires KeysFresh(s, key, next)
    requires x in s && y in s && key(x) == key(y)
    ensures x == y
  {
    var i :| 0 <= i < |s| && s[i] == x;
    var j :| 0 <= j < |s| && s[j] == y;
    assert !(i < j) && !(j < i);
  }

  /** The rows after the first keep fresh keys, none equal to the first's. */
  lemma KeysFreshTail<T>(s: seq<T>, key: T -> Id, next: Id)
    requires KeysFresh(s, key, next) && s != []
    ensures KeysFresh(s[1..], key, next)
    ensures forall x :: x in s[1..] ==> key(x) != key(s[0])
  {
    var rest := s[1..];
    forall i, j | 0 <= i < j < |rest| ensures key(rest[i]) != key(rest[j]) {
      assert rest[i] == s[i + 1] && rest[j] == s[j + 1];
    }
    forall x | x in rest ensures key(x) != key(s[0]) {
      var k :| 0 <= k < |rest| && rest[k] == x;
      assert s[k + 1] == x;
    }
  }

  /** A row with a fresh key distinct from the others may be put in front. */
  lemma KeysFreshCons<T>(x: T, s: seq<T>, key: T -> Id, next: Id)
    requires KeysFresh(s, key, next) && key(x) < next
    requires forall y :: y in s ==> key(y) != key(x)
    ensures KeysFresh([x] + s, key, next)
  {
    var r := [x] + s;
    forall i, j | 0 <= i < j < |r| ensures key(r[i]) != key(r[j]) {
      assert r[j] == s[j - 1];
      if i > 0 {
        assert r[i] == s[i - 1];
      }
    }
  }

  /** Dropping rows keeps the remaining keys distinct and fresh. */
  lemma {:induction false} FilterKeepsKeysFresh<T(!new)>(s: seq<T>, p: T -> bool, key: T -> Id, next: Id)
    requires KeysFresh(s, key, next)
    ensures KeysFresh(Filter(s, p), key, next)
  {
    if s != [] {
      KeysFreshTail(s, key, next);
      FilterKeepsKeysFresh(s[1..], p, key, next);
      var tail := Filter(s[1..], p);
      if p(s[0]) {
        KeysFreshCons(s[0], tail, key, next);
      }
    }
  }

  /** With unique keys a row occurs at most once. */
  lemma {:induction false} KeysFreshOccursOnce<T>(s: seq<T>, key: T -> Id, next: Id, x: T)
    requires KeysFresh(s, key, next)
    ensures multiset(s)[x] <= 1
  {
    if s != [] {
      var rest := s[1..];
      assert s == [s[0]] + rest;
      KeysFreshTail(s, key, next);
      KeysFreshOccursOnce(rest, key, next, x);
    }
  }
}
