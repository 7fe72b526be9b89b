/** The in-memory stand-in for one document collection: rows in insertion order, each with
    the id the store's counter gave it. Ids double as creation times (`createdAt`), since both
    come from the same increasing counter. */
module Tables {
  import opened Wrappers

  type Id = nat
  type Time = nat

  datatype Row<T> = Row(id: Id, doc: T)
  type Table<T> = seq<Row<T>>

  /** Ids strictly increase along the table (so they are unique and follow creation order). */
  ghost predicate Increasing<T>(t: Table<T>) {
    forall i, j :: 0 <= i < j < |t| ==> t[i].id < t[j].id
  }

  /** Every id in the table was handed out before `next`. */
  ghost predicate Below<T>(t: Table<T>, next: Id) {
    forall i :: 0 <= i < |t| ==> t[i].id < next
  }

  /** `Increasing` stated one neighbour pair at a time, so that a database of many tables can
      carry it without every pair of rows of every table coming into play. */
  ghost predicate Chained<T>(t: Table<T>) {
    |t| <= 1 || (t[|t| - 2].id < t[|t| - 1].id && Chained(t[..|t| - 1]))
  }

  lemma {:induction false} ChainedIsIncreasing<T>(t: Table<T>)
    ensures Chained(t) <==> Increasing(t)
  {
    if |t| > 1 {
      var p := t[..|t| - 1];
      ChainedIsIncreasing(p);
      if Chained(t) {
        forall i, j | 0 <= i < j < |t| ensures t[i].id < t[j].id {
          if j < |t| - 1 {
            assert p[i] == t[i] && p[j] == t[j];
          } else if i < |t| - 2 {
            assert p[i] == t[i] && p[|t| - 2] == t[|t| - 2];
          }
        }
      }
      if Increasing(t) {
        assert Increasing(p) by {
          forall i, j | 0 <= i < j < |p| ensures p[i].id < p[j].id {
            assert p[i] == t[i] && p[j] == t[j];
          }
        }
      }
    }
  }

  /** Ids increase along the table and the last one was handed out before `next`. */
  ghost predicate Keyed<T>(t: Table<T>, next: Id) {
    Chained(t) && (|t| > 0 ==> t[|t| - 1].id < next)
  }

  lemma KeyedIncreasing<T>(t: Table<T>, next: Id)
    requires Keyed(t, next)
    ensures Increasing(t)
  {
    ChainedIsIncreasing(t);
  }

  /** Two tables hold the same rows in the same places, documents aside. */
  ghost predicate SameIds<T>(t: Table<T>, u: Table<T>) {
    |t| == |u| && forall i :: 0 <= i < |t| ==> t[i].id == u[i].id
  }

  lemma KeyedBelow<T>(t: Table<T>, next: Id)
    requires Keyed(t, next)
    ensures Below(t, next)
  {
    KeyedIncreasing(t, next);
    forall i | 0 <= i < |t| ensures t[i].id < next {
      if i < |t| - 1 { assert t[i].id < t[|t| - 1].id; }
    }
  }

  /** A row appended above every id of a table outranks all of the result. */
  lemma BelowAppend<T>(t: Table<T>, x: Row<T>)
    requires Below(t, x.id)
    ensures forall y :: y in t + [x] ==> y.id <= x.id
  {
    forall y | y in t + [x] ensures y.id <= x.id {
      var k :| 0 <= k < |t + [x]| && (t + [x])[k] == y;
      if k < |t| { assert t[k] == y; }
    }
  }

  /** Appending a document under the counter's current value keeps the table keyed, whatever
      the counter moves on to. */
  lemma KeyedInsert<T>(t: Table<T>, d: T, next: Id, later: Id)
    requires Keyed(t, next) && next < later
    ensures Keyed(t + [Row(next, d)], later)
  {
    assert (t + [Row(next, d)])[..|t|] == t;
  }

  /** Appending rows numbered on from the counter keeps the table keyed below the counter
      advanced past them. */
  lemma {:induction false} KeyedRun<T>(t: Table<T>, r: Table<T>, next: Id)
    requires Keyed(t, next)
    requires forall k :: 0 <= k < |r| ==> r[k].id == next + k
    ensures Keyed(t + r, next + |r|)
    decreases |r|
  {
    if r == [] {
      assert t + r == t;
    } else {
      var p := r[..|r| - 1];
      KeyedRun(t, p, next);
      KeyedInsert(t + p, r[|r| - 1].doc, next + |p|, next + |r|);
      assert t + r == (t + p) + [Row(next + |p|, r[|r| - 1].doc)];
    }
  }

  /** Rewriting documents in place keeps the table keyed. */
  lemma KeyedRewrite<T>(t: Table<T>, u: Table<T>, next: Id)
    requires Keyed(t, next) && SameIds(t, u)
    ensures Keyed(u, next)
  {
    ChainedIsIncreasing(t);
    ChainedIsIncreasing(u);
  }

  /** `findById`: the position of the first row with this id. */
  function Find<T>(t: Table<T>, id: Id): (r: Option<nat>)
    ensures r.Some? ==> r.value < |t| && t[r.value].id == id
    ensures r.Some? ==> forall k :: 0 <= k < r.value ==> t[k].id != id
    ensures r.None? <==> forall k :: 0 <= k < |t| ==> t[k].id != id
  {
    if t == [] then None
    else if t[0].id == id then Some(0)
    else match Find(t[1..], id)
      case None => None
      case Some(k) => Some(k + 1)
  }

  /** In a keyed table the row with a given id is the only one. */
  lemma FindUnique<T>(t: Table<T>, id: Id, i: nat)
    requires Increasing(t) && i < |t| && t[i].id == id
    ensures Find(t, id) == Some(i)
  {
  }

  /** Lookups by id see only ids, so rewriting documents in place does not move them. */
  lemma FindSameIds<T>(t: Table<T>, u: Table<T>, id: Id)
    requires SameIds(t, u)
    ensures Find(t, id) == Find(u, id)
  {
  }

  /** Appending a row leaves earlier hits where they were. */
  lemma {:induction false} FindAppend<T>(t: Table<T>, x: Row<T>, id: Id)
    ensures Find(t + [x], id) ==
      if Find(t, id).Some? then Find(t, id) else if x.id == id then Some(|t|) else None
  {
    if t != [] && t[0].id != id {
      assert (t + [x])[1..] == t[1..] + [x];
      FindAppend(t[1..], x, id);
    }
  }

  /** The document stored under an id, if any. */
  function Get<T>(t: Table<T>, id: Id): (r: Option<T>)
    ensures r.Some? <==> Find(t, id).Some?
    ensures r.Some? ==> r.value == t[Find(t, id).value].doc
  {
    match Find(t, id)
    case None => None
    case Some(i) => Some(t[i].doc)
  }

  /** In a keyed table a lookup by id finds exactly the rows that are there. */
  /** In a keyed table every row is what `findById` of its own id returns. */
  lemma KeyedGet<T>(t: Table<T>, next: Id, i: nat)
    requires Keyed(t, next) && i < |t|
    ensures Get(t, t[i].id) == Some(t[i].doc)
  {
    KeyedIncreasing(t, next);
    FindUnique(t, t[i].id, i);
  }

  lemma GetMember<T>(t: Table<T>, id: Id, d: T)
    requires Increasing(t)
    ensures Get(t, id) == Some(d) <==> Row(id, d) in t
  {
    if Row(id, d) in t {
      var j :| 0 <= j < |t| && t[j] == Row(id, d);
      FindUnique(t, id, j);
    }
  }

  /** A lookup misses exactly when no row carries the id. */
  lemma GetAbsent<T>(t: Table<T>, id: Id)
    ensures Get(t, id).None? <==> forall x :: x in t ==> x.id != id
  {
    if Get(t, id).Some? {
      assert t[Find(t, id).value] in t;
    }
  }

  /** A keyed sub-table answers a lookup exactly when the full table does and the row passes
      the filter that made the sub-table. */
  lemma GetSubset<T>(t: Table<T>, r: Table<T>, keep: Row<T> -> bool, id: Id)
    requires Increasing(t) && Increasing(r)
    requires forall x :: x in r <==> x in t && keep(x)
    ensures Get(r, id).Some? <==> Get(t, id).Some? && keep(Row(id, Get(t, id).value))
    ensures Get(r, id).Some? ==> Get(r, id) == Get(t, id)
  {
    match Get(r, id)
    case Some(d) =>
      GetMember(r, id, d);
      GetMember(t, id, d);
    case None =>
      match Get(t, id)
      case Some(d) =>
        GetMember(t, id, d);
        if keep(Row(id, d)) { GetMember(r, id, d); }
      case None =>
  }

  /** Replace the document at one position, keeping its id. */
  function SetDoc<T>(t: Table<T>, i: nat, d: T): (r: Table<T>)
    requires i < |t|
    ensures SameIds(t, r) && r[i].doc == d
    ensures forall k :: 0 <= k < |t| && k != i ==> r[k] == t[k]
  {
    t[i := Row(t[i].id, d)]
  }

  lemma IncreasingTail<T>(t: Table<T>)
    requires Increasing(t) && t != []
    ensures Increasing(t[1..])
  {
    forall i, j | 0 <= i < j < |t[1..]| ensures t[1..][i].id < t[1..][j].id {
      assert t[1..][i] == t[i + 1] && t[1..][j] == t[j + 1];
    }
  }

  /** A row with a smaller id than every row of an increasing table can go in front of it. */
  lemma IncreasingCons<T>(x: Row<T>, r: Table<T>)
    requires Increasing(r) && forall y :: y in r ==> x.id < y.id
    ensures Increasing([x] + r)
  {
    forall i, j | 0 <= i < j < |[x] + r| ensures ([x] + r)[i].id < ([x] + r)[j].id {
      if i == 0 {
        assert ([x] + r)[j] == r[j - 1] && r[j - 1] in r;
      } else {
        assert ([x] + r)[i] == r[i - 1] && ([x] + r)[j] == r[j - 1];
      }
    }
  }

  /** `find(filter)`: the rows that satisfy a filter, in table order. */
  function Filter<T(!new)>(t: Table<T>, keep: Row<T> -> bool): (r: Table<T>)
    ensures forall x :: x in r <==> x in t && keep(x)
    ensures |r| <= |t|
    ensures Increasing(t) ==> Increasing(r)
  {
    if t == [] then []
    else
      var rest := Filter(t[1..], keep);
      assert Increasing(t) ==> Increasing(rest) && (keep(t[0]) ==> Increasing([t[0]] + rest)) by {
        if Increasing(t) {
          IncreasingTail(t);
          forall y | y in rest ensures t[0].id < y.id {
            var k :| 0 <= k < |t[1..]| && t[1..][k] == y;
            assert t[k + 1] == y;
          }
          IncreasingCons(t[0], rest);
        }
      }
      if keep(t[0]) then [t[0]] + rest else rest
  }

  /** A kept last row is the last row of the filtered table. */
  lemma {:induction false} FilterLast<T(!new)>(t: Table<T>, keep: Row<T> -> bool)
    requires t != [] && keep(t[|t| - 1])
    ensures var r := Filter(t, keep); r != [] && r[|r| - 1] == t[|t| - 1]
  {
    if |t| > 1 {
      FilterLast(t[1..], keep);
    }
  }

  /** Filtering a table extended by one row extends the filtered table by that row when it
      is kept, and leaves it as it was otherwise. */
  lemma {:induction false} FilterSnoc<T(!new)>(t: Table<T>, x: Row<T>, keep: Row<T> -> bool)
    ensures Filter(t + [x], keep) == Filter(t, keep) + (if keep(x) then [x] else [])
  {
    if t == [] {
      assert [x][1..] == [];
    } else {
      assert (t + [x])[1..] == t[1..] + [x];
      FilterSnoc(t[1..], x, keep);
    }
  }

  /** `findOne(filter)`: the first row that satisfies a filter. */
  function First<T>(t: Table<T>, keep: Row<T> -> bool): (r: Option<Row<T>>)
    ensures r.Some? ==> r.value in t && keep(r.value)
    ensures r.None? <==> forall k :: 0 <= k < |t| ==> !keep(t[k])
    ensures r.Some? ==> exists k :: 0 <= k < |t| && t[k] == r.value &&
                          forall j :: 0 <= j < k ==> !keep(t[j])
  {
    if t == [] then None
    else if keep(t[0]) then Some(t[0])
    else
      var rest := First(t[1..], keep);
      assert rest.Some? ==> exists k :: 0 <= k < |t| && t[k] == rest.value &&
                             forall j :: 0 <= j < k ==> !keep(t[j]) by {
        if rest.Some? {
          var k :| 0 <= k < |t[1..]| && t[1..][k] == rest.value &&
                   forall j :: 0 <= j < k ==> !keep(t[1..][j]);
          assert t[k + 1] == rest.value;
          assert forall j :: 1 <= j < k + 1 ==> t[j] == t[1..][j - 1];
        }
      }
      rest
  }

  /** Row `k` is the first row of `t` that satisfies the filter. */
  predicate IsFirst<T>(t: Table<T>, keep: Row<T> -> bool, k: int) {
    0 <= k < |t| && keep(t[k]) && forall j :: 0 <= j < k ==> !keep(t[j])
  }

  /** `findOne` returns the row at the first index that satisfies the filter. */
  lemma FirstIsAt<T>(t: Table<T>, keep: Row<T> -> bool, k: int)
    requires IsFirst(t, keep, k)
    ensures First(t, keep) == Some(t[k])
  {
    assert First(t, keep).Some?;
    var i :| 0 <= i < |t| && t[i] == First(t, keep).value && forall j :: 0 <= j < i ==> !keep(t[j]);
    assert keep(t[i]);
    assert !(i < k) && !(k < i);
  }

  /** Whatever `findOne` returns sits at the first index that satisfies the filter. */
  lemma FirstLink<T>(t: Table<T>, keep: Row<T> -> bool)
    ensures forall k | IsFirst(t, keep, k) :: First(t, keep) == Some(t[k])
  {
    forall k | IsFirst(t, keep, k) ensures First(t, keep) == Some(t[k]) {
      FirstIsAt(t, keep, k);
    }
  }

  /** Searching the rows a filter kept is searching the whole table with both conditions. */
  lemma {:induction false} FirstOfFilter<T(!new)>(
    t: Table<T>, p: Row<T> -> bool, q: Row<T> -> bool, both: Row<T> -> bool)
    requires forall x :: both(x) == (p(x) && q(x))
    ensures First(Filter(t, p), q) == First(t, both)
  {
    if t != [] {
      FirstOfFilter(t[1..], p, q, both);
      var rest := Filter(t[1..], p);
      assert ([t[0]] + rest)[1..] == rest;
    }
  }

  /** `updateMany(filter, set)` as a whole-table rewrite: each row's new document is `f` of it. */
  function MapDocs<T>(t: Table<T>, f: Row<T> -> T): (r: Table<T>)
    ensures SameIds(t, r)
    ensures forall i :: 0 <= i < |t| ==> r[i].doc == f(t[i])
  {
    seq(|t|, i requires 0 <= i < |t| => Row(t[i].id, f(t[i])))
  }

  /** `{ _id: { $in: ids } }`. */
  function Within<T(!new)>(t: Table<T>, ids: set<Id>): (r: Table<T>)
    ensures forall x :: x in r <==> x in t && x.id in ids
    ensures Increasing(t) ==> Increasing(r)
  {
    Filter(t, (x: Row<T>) => x.id in ids)
  }

  /** The lookup dictionary a `forEach` over fetched rows fills: id -> `f` of the document,
      later rows overwriting earlier ones. */
  function Index<T, U>(t: Table<T>, f: T -> U): map<Id, U>
  {
    if t == [] then map[] else Index(t[..|t| - 1], f)[t[|t| - 1].id := f(t[|t| - 1].doc)]
  }

  /** One more step of the `forEach` that fills the dictionary. */
  lemma IndexStep<T, U>(t: Table<T>, f: T -> U, i: nat)
    requires i < |t|
    ensures Index(t[..i + 1], f) == Index(t[..i], f)[t[i].id := f(t[i].doc)]
  {
    assert t[..i + 1][..i] == t[..i];
  }

  /** The `forEach` itself: `dict[row._id] = f(row)` for each fetched row in turn. */
  method FillIndex<T, U>(t: Table<T>, f: T -> U) returns (dict: map<Id, U>)
    ensures dict == Index(t, f)
  {
    dict := map[];
    var i := 0;
    while i < |t|
      invariant 0 <= i <= |t|
      invariant dict == Index(t[..i], f)
    {
      IndexStep(t, f, i);
      dict := dict[t[i].id := f(t[i].doc)];
      i := i + 1;
    }
    assert t[..|t|] == t;
  }

  /** In a keyed table the dictionary answers exactly as a lookup by id does. */
  lemma {:induction false} IndexIsGet<T, U>(t: Table<T>, f: T -> U, id: Id)
    requires Increasing(t)
    ensures id in Index(t, f) <==> Get(t, id).Some?
    ensures id in Index(t, f) ==> Index(t, f)[id] == f(Get(t, id).value)
  {
    if t != [] {
      var n := |t| - 1;
      var p := t[..n];
      assert Increasing(p);
      IndexIsGet(p, f, id);
      if t[n].id == id {
        FindUnique(t, id, n);
      } else {
        match Find(p, id)
        case None =>
          assert Find(t, id).None?;
        case Some(i) =>
          FindUnique(t, id, i);
      }
    }
  }

  /** The same sequence back to front. */
  function Reverse<T>(s: seq<T>): (r: seq<T>)
    ensures |r| == |s|
    ensures forall k :: 0 <= k < |s| ==> r[k] == s[|s| - 1 - k]
  {
    if s == [] then [] else Reverse(s[1..]) + [s[0]]
  }

  /** Ids strictly decrease along the sequence: newest first. */
  ghost predicate NewestFirst<T>(t: Table<T>) {
    forall i, j :: 0 <= i < j < |t| ==> t[i].id > t[j].id
  }

  lemma ReverseNewestFirst<T>(t: Table<T>)
    requires Increasing(t)
    ensures NewestFirst(Reverse(t))
  {
  }

  /** `.sort({ createdAt: -1 })` of rows fetched in creation order. */
  function NewestToOldest<T(!new)>(t: Table<T>): (r: Table<T>)
    ensures forall x :: x in r <==> x in t
    ensures Increasing(t) ==> NewestFirst(r)
  {
    var r := Reverse(t);
    assert Increasing(t) ==> NewestFirst(r) by {
      if Increasing(t) { ReverseNewestFirst(t); }
    }
    assert forall x :: x in r ==> x in t by {
      forall x | x in r ensures x in t {
        var k :| 0 <= k < |r| && r[k] == x;
        assert t[|t| - 1 - k] == x;
      }
    }
    assert forall x :: x in t ==> x in r by {
      forall x | x in t ensures x in r {
        var k :| 0 <= k < |t| && t[k] == x;
        assert r[|t| - 1 - k] == x;
      }
    }
    r
  }

  /** In a newest-first table the head is newer than every other row, and the tail holds
      exactly the other rows, still newest first. */
  lemma HeadIsNewest<T>(a: Table<T>)
    requires NewestFirst(a) && a != []
    ensures NewestFirst(a[1..])
    ensures forall x :: x in a && x != a[0] ==> x.id < a[0].id
    ensures forall x :: x in a[1..] <==> x in a && x != a[0]
  {
    forall x | x in a && x != a[0] ensures x.id < a[0].id && x in a[1..] {
      var k :| 0 <= k < |a| && a[k] == x;
      assert a[1..][k - 1] == x;
    }
    forall x | x in a[1..] ensures x in a && x != a[0] {
      var k :| 0 <= k < |a[1..]| && a[1..][k] == x;
      assert a[k + 1] == x;
    }
  }

  lemma FrontIsMember<T>(s: seq<T>)
    ensures s != [] ==> s[0] in s
  {
  }

  /** Newest-first order with distinct ids leaves no freedom: two such tables with the same
      rows are the same table. */
  lemma {:induction false} NewestFirstUnique<T>(a: Table<T>, b: Table<T>)
    requires NewestFirst(a) && NewestFirst(b)
    requires forall x :: x in a <==> x in b
    ensures a == b
  {
    if a == [] {
      FrontIsMember(b);
    } else {
      assert a[0] in b;
      HeadIsNewest(a);
      HeadIsNewest(b);
      assert a[0] == b[0] by {
        assert b[0] in a;
      }
      NewestFirstUnique(a[1..], b[1..]);
      assert a == [a[0]] + a[1..] && b == [b[0]] + b[1..];
    }
  }
}
