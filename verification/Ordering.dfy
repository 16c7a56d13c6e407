/** Text order, the ORDER BY of list queries, and pages of ordered results. */
module Ordering {
  import opened Basics

  /** Code-point order on strings: SQLite's BINARY collation and Go's sort.Strings on valid UTF-8. */
  predicate Less(a: string, b: string) {
    b != [] && (a == [] || a[0] < b[0] || (a[0] == b[0] && Less(a[1..], b[1..])))
  }

  ghost predicate StrictOrder<T(!new)>(before: (T, T) -> bool) {
    && (forall x :: !before(x, x))
    && (forall x, y, z :: before(x, y) && before(y, z) ==> before(x, z))
  }

  lemma {:induction false} LessIrreflexive(a: string)
    ensures !Less(a, a)
  {
    if a != [] { LessIrreflexive(a[1..]); }
  }

  lemma {:induction false} LessTransitive(a: string, b: string, c: string)
    requires Less(a, b) && Less(b, c)
    ensures Less(a, c)
  {
    if a != [] && a[0] == b[0] == c[0] {
      LessTransitive(a[1..], b[1..], c[1..]);
    }
  }

  lemma {:induction false} LessTotal(a: string, b: string)
    ensures a == b || Less(a, b) || Less(b, a)
  {
    if a != [] && b != [] && a[0] == b[0] {
      LessTotal(a[1..], b[1..]);
      assert a == [a[0]] + a[1..] && b == [b[0]] + b[1..];
    }
  }

  lemma LessIsStrict()
    ensures StrictOrder(Less)
  {
    forall x { LessIrreflexive(x); }
    forall x, y, z | Less(x, y) && Less(y, z) { LessTransitive(x, y, z); }
  }

  /** Dictionary order: a proper prefix comes first, otherwise the smaller character where the two first differ. */
  lemma {:induction false} LessExactly(a: string, b: string)
    ensures Less(a, b) <==>
            a < b || exists i | 0 <= i < |a| && i < |b| :: a[..i] == b[..i] && a[i] < b[i]
  {
    if a == [] || b == [] {
    } else if a[0] == b[0] {
      LessExactly(a[1..], b[1..]);
      assert a == [a[0]] + a[1..] && b == [b[0]] + b[1..];
      if i :| 0 <= i < |a| && i < |b| && a[..i] == b[..i] && a[i] < b[i] {
        assert a[1..][..i - 1] == a[..i][1..] && b[1..][..i - 1] == b[..i][1..];
      }
      if i :| 0 <= i < |a| - 1 && i < |b| - 1 && a[1..][..i] == b[1..][..i] && a[1..][i] < b[1..][i] {
        assert a[..i + 1] == [a[0]] + a[1..][..i] && b[..i + 1] == [b[0]] + b[1..][..i];
        assert a[i + 1] < b[i + 1];
      }
    } else {
      DifferAtOnce(a, b);
    }
  }

  lemma DifferAtOnce(a: string, b: string)
    requires a != [] && b != [] && a[0] != b[0]
    ensures !(a < b)
    ensures a[0] < b[0] <==> exists i | 0 <= i < |a| && i < |b| :: a[..i] == b[..i] && a[i] < b[i]
  {
    forall i | 0 < i < |a| && i < |b| ensures a[..i] != b[..i] {
      assert a[..i][0] == a[0] && b[..i][0] == b[0];
    }
    assert a[..0] == b[..0];
  }

  // ---- ordered sequences ----

  ghost predicate Ascending<T(!new)>(before: (T, T) -> bool, s: seq<T>) {
    forall i, j | 0 <= i < j < |s| :: before(s[i], s[j])
  }

  /** A strict order leaves one way to list a set of rows. */
  lemma {:induction false} AscendingUnique<T(!new)>(before: (T, T) -> bool, a: seq<T>, b: seq<T>)
    requires StrictOrder(before) && Ascending(before, a) && Ascending(before, b)
    requires forall x :: x in a <==> x in b
    ensures a == b
    decreases |a|
  {
    if a == [] {
      NoMembers(b);
    } else {
      assert a[0] in a;
      SameFirst(before, a, b);
      TailMembers(before, a);
      TailMembers(before, b);
      AscendingUnique(before, a[1..], b[1..]);
      assert a == [a[0]] + a[1..] && b == [b[0]] + b[1..];
    }
  }

  lemma SameFirst<T(!new)>(before: (T, T) -> bool, a: seq<T>, b: seq<T>)
    requires StrictOrder(before) && Ascending(before, a) && Ascending(before, b)
    requires forall x :: x in a <==> x in b
    requires a != [] && b != []
    ensures a[0] == b[0]
  {
    assert b[0] in b && a[0] in a;
    FirstIsLeast(before, a, b[0]);
    FirstIsLeast(before, b, a[0]);
  }

  lemma NoMembers<T(!new)>(s: seq<T>)
    ensures s == [] || exists x :: x in s
  {
    if s != [] { assert s[0] in s; }
  }

  lemma FirstIsLeast<T(!new)>(before: (T, T) -> bool, s: seq<T>, x: T)
    requires Ascending(before, s) && x in s
    ensures x == s[0] || before(s[0], x)
  {
    var i :| 0 <= i < |s| && s[i] == x;
    if i > 0 { assert before(s[0], s[i]); }
  }

  lemma TailMembers<T(!new)>(before: (T, T) -> bool, s: seq<T>)
    requires StrictOrder(before) && Ascending(before, s) && s != []
    ensures Ascending(before, s[1..])
    ensures forall x :: x in s[1..] <==> x in s && x != s[0]
  {
    forall x | x in s && x != s[0] ensures x in s[1..] {
      var i :| 0 <= i < |s| && s[i] == x;
      assert s[1..][i - 1] == x;
    }
    forall x | x in s[1..] ensures x in s && x != s[0] {
      var i :| 0 <= i < |s| - 1 && s[1..][i] == x;
      assert s[i + 1] == x && before(s[0], s[i + 1]);
    }
  }

  /** Puts x before the first element that is not less than it. */
  function Insert(s: seq<string>, x: string): seq<string> {
    if s == [] || !Less(s[0], x) then [x] + s else [s[0]] + Insert(s[1..], x)
  }

  lemma FrontAscending(s: seq<string>, x: string)
    requires Ascending(Less, s) && s != [] && x != s[0] && !Less(s[0], x)
    ensures Ascending(Less, [x] + s)
  {
    LessTotal(s[0], x);
    forall i | 0 <= i < |s| ensures Less(x, s[i]) {
      if i > 0 { LessTransitive(x, s[0], s[i]); }
    }
  }

  lemma HeadAscending(head: string, tail: seq<string>, rest: seq<string>, x: string)
    requires Ascending(Less, [head] + tail) && Ascending(Less, rest) && Less(head, x)
    requires multiset(rest) == multiset(tail) + multiset{x}
    ensures Ascending(Less, [head] + rest)
  {
    forall i | 0 <= i < |rest| ensures Less(head, rest[i]) {
      assert rest[i] in multiset(rest);
      if rest[i] != x {
        assert rest[i] in multiset(tail);
        assert rest[i] in tail;
        var j :| 0 <= j < |tail| && tail[j] == rest[i];
        var all := [head] + tail;
        assert Less(all[0], all[j + 1]);
      }
    }
  }

  lemma {:induction false} InsertAscending(s: seq<string>, x: string)
    requires Ascending(Less, s) && x !in s
    ensures Ascending(Less, Insert(s, x)) && multiset(Insert(s, x)) == multiset(s) + multiset{x}
  {
    if s == [] {
    } else if !Less(s[0], x) {
      FrontAscending(s, x);
    } else {
      assert s == [s[0]] + s[1..];
      InsertAscending(s[1..], x);
      HeadAscending(s[0], s[1..], Insert(s[1..], x), x);
    }
  }

  /** The members of a set in ascending order. */
  ghost function InOrder(ids: set<string>): seq<string> {
    if ids == {} then []
    else
      var x :| x in ids;
      Insert(InOrder(ids - {x}), x)
  }

  lemma {:induction false} InOrderSorts(ids: set<string>)
    ensures Ascending(Less, InOrder(ids)) && multiset(InOrder(ids)) == multiset(ids)
  {
    if ids != {} {
      var x :| x in ids && InOrder(ids) == Insert(InOrder(ids - {x}), x);
      InOrderSorts(ids - {x});
      assert x !in multiset(InOrder(ids - {x}));
      InsertAscending(InOrder(ids - {x}), x);
      assert multiset(ids - {x}) + multiset{x} == multiset(ids);
    }
  }

  lemma InOrderMembers(ids: set<string>)
    ensures Ascending(Less, InOrder(ids))
    ensures forall x :: x in InOrder(ids) <==> x in ids
    ensures |InOrder(ids)| == |ids|
  {
    InOrderSorts(ids);
    assert |multiset(InOrder(ids))| == |multiset(ids)|;
    forall x ensures x in InOrder(ids) <==> x in ids {
      assert x in InOrder(ids) <==> x in multiset(InOrder(ids));
    }
  }

  ghost function Members(s: seq<string>): set<string> {
    set x | x in s
  }

  /** The members of a set that come before x. */
  ghost function Before(ids: set<string>, x: string): set<string> {
    set y | y in ids && Less(y, x)
  }

  lemma {:induction false} PrefixSize(s: seq<string>, n: nat)
    requires Ascending(Less, s) && n <= |s|
    ensures |Members(s[..n])| == n
  {
    if n > 0 {
      PrefixSize(s, n - 1);
      assert s[..n] == s[..n - 1] + [s[n - 1]];
      assert Members(s[..n]) == Members(s[..n - 1]) + {s[n - 1]};
      LessIrreflexive(s[n - 1]);
    }
  }

  lemma BeforeIsPrefix(s: seq<string>, i: nat, y: string)
    requires Ascending(Less, s) && i < |s|
    ensures y in s && Less(y, s[i]) <==> y in s[..i]
  {
    if y in s && Less(y, s[i]) {
      var j :| 0 <= j < |s| && s[j] == y;
      NotAfter(s, i, j);
      assert s[..i][j] == y;
    }
    if y in s[..i] {
      var j :| 0 <= j < i && s[..i][j] == y;
      assert s[j] in s;
    }
  }

  lemma NotAfter(s: seq<string>, i: nat, j: nat)
    requires Ascending(Less, s) && i < |s| && j < |s| && Less(s[j], s[i])
    ensures j < i
  {
    LessIrreflexive(s[i]);
    if i < j { LessTransitive(s[i], s[j], s[i]); }
  }

  /** The i-th of a set in order has exactly i members before it. */
  lemma RankInOrder(ids: set<string>, i: nat)
    requires i < |InOrder(ids)|
    ensures |Before(ids, InOrder(ids)[i])| == i
  {
    InOrderMembers(ids);
    var s := InOrder(ids);
    PrefixSize(s, i);
    forall y ensures y in Before(ids, s[i]) <==> y in Members(s[..i]) { BeforeIsPrefix(s, i, y); }
    assert Before(ids, s[i]) == Members(s[..i]);
  }

  /** SELECT DISTINCT id ... ORDER BY id ASC: rows arrive in any order, the result is in order. */
  method OrderBy(ids: set<string>) returns (s: seq<string>)
    ensures s == InOrder(ids)
  {
    s := [];
    var left := ids;
    while left != {}
      invariant left <= ids && Ascending(Less, s)
      invariant forall x :: x in s <==> x in ids - left
      decreases |left|
    {
      var x :| x in left;
      InsertAscending(s, x);
      forall y ensures y in Insert(s, x) <==> y in s || y == x {
        assert y in Insert(s, x) <==> y in multiset(Insert(s, x));
      }
      s := Insert(s, x);
      left := left - {x};
    }
    InOrderMembers(ids);
    LessIsStrict();
    AscendingUnique(Less, s, InOrder(ids));
  }

  // ---- list options and pages ----

  const DEFAULT_LIMIT := 20
  const MAX_LIMIT := 100

  datatype ListOpts = ListOpts(offset: int, limit: int)

  /** SanitizeListOpts. */
  function Sanitize(opts: ListOpts): (clean: ListOpts)
    ensures 1 <= clean.limit <= MAX_LIMIT && clean.offset >= 0
    ensures 1 <= opts.limit <= MAX_LIMIT && opts.offset >= 0 ==> clean == opts
    ensures (opts.limit <= 0 ==> clean.limit == 20) && (opts.limit > 100 ==> clean.limit == 100)
    ensures opts.offset < 0 ==> clean.offset == 0
  {
    var limit := if opts.limit <= 0 then DEFAULT_LIMIT else opts.limit;
    ListOpts(if opts.offset < 0 then 0 else opts.offset, if limit > MAX_LIMIT then MAX_LIMIT else limit)
  }

  /** LIMIT limit OFFSET offset. */
  function Page<T>(rows: seq<T>, offset: nat, limit: nat): seq<T> {
    if offset >= |rows| then [] else if offset + limit >= |rows| then rows[offset..] else rows[offset..offset + limit]
  }

  /** The first n pages, one after the other. */
  function Pages<T>(rows: seq<T>, limit: nat, n: nat): seq<T> {
    if n == 0 then [] else Pages(rows, limit, n - 1) + Page(rows, (n - 1) * limit, limit)
  }

  /** Pages at offsets 0, L, 2L, ... follow each other without gap or repeat. */
  lemma {:induction false} PagesTile<T>(rows: seq<T>, limit: nat, n: nat)
    ensures Pages(rows, limit, n) == if n * limit <= |rows| then rows[..n * limit] else rows
  {
    if n > 0 {
      PagesTile(rows, limit, n - 1);
      assert n * limit == (n - 1) * limit + limit;
    }
  }

  /** Paging through a list with any requested limit returns the whole list once enough pages are read. */
  lemma PagingComplete<T>(rows: seq<T>, opts: ListOpts, n: nat)
    requires n >= |rows|
    ensures Pages(rows, Sanitize(opts).limit, n) == rows
  {
    PagesTile(rows, Sanitize(opts).limit, n);
    TimesAtLeast(n, Sanitize(opts).limit);
  }

  lemma TimesAtLeast(n: nat, limit: nat)
    requires limit >= 1
    ensures n * limit >= n
  {
  }

  // ---- ORDER BY column, id ----

  /** What an ORDER BY can see of a row: the sort column's value and the primary key. */
  datatype SortRow = SortRow(column: string, id: Id)

  /** orderByClause: the column in the asked direction, then the id in the same direction. */
  predicate RowBefore(desc: bool, a: SortRow, b: SortRow) {
    if desc then RowLess(b, a) else RowLess(a, b)
  }

  predicate RowLess(a: SortRow, b: SortRow) {
    Less(a.column, b.column) || (a.column == b.column && Less(a.id, b.id))
  }

  lemma RowLessTransitive(a: SortRow, b: SortRow, c: SortRow)
    requires RowLess(a, b) && RowLess(b, c)
    ensures RowLess(a, c)
  {
    if Less(a.column, b.column) && Less(b.column, c.column) {
      LessTransitive(a.column, b.column, c.column);
    } else if a.column == b.column == c.column {
      LessTransitive(a.id, b.id, c.id);
    }
  }

  ghost function RowOrder(desc: bool): (SortRow, SortRow) -> bool {
    (a: SortRow, b: SortRow) => RowBefore(desc, a, b)
  }

  lemma RowOrderStrict(desc: bool)
    ensures StrictOrder(RowOrder(desc))
  {
    var before := RowOrder(desc);
    forall x ensures !before(x, x) {
      LessIrreflexive(x.column);
      LessIrreflexive(x.id);
    }
    forall x, y, z | before(x, y) && before(y, z) ensures before(x, z) {
      if desc { RowLessTransitive(z, y, x); } else { RowLessTransitive(x, y, z); }
    }
  }

  /** Rows of different columns follow their columns in the asked direction, rows of one column their ids
      in the same direction, so of two different rows exactly one comes first. */
  lemma RowOrderExactly(desc: bool, a: SortRow, b: SortRow)
    ensures a.column != b.column ==>
              (RowBefore(desc, a, b) <==> if desc then Less(b.column, a.column) else Less(a.column, b.column))
    ensures a.column == b.column ==> (RowBefore(desc, a, b) <==> if desc then Less(b.id, a.id) else Less(a.id, b.id))
    ensures a != b ==> (RowBefore(desc, a, b) <==> !RowBefore(desc, b, a))
  {
    LessTotal(a.column, b.column);
    LessTotal(a.id, b.id);
    if a.column == b.column { LessIrreflexive(a.column); }
    RowOrderStrict(desc);
    var before := RowOrder(desc);
    assert before(a, b) && before(b, a) ==> before(a, a);
  }

  /** Because the id breaks ties, two executions of the same list query return the rows in the same
      order, so pages taken from different executions still tile. */
  lemma ListingDeterministic(desc: bool, first: seq<SortRow>, second: seq<SortRow>, limit: nat, n: nat)
    requires Ascending(RowOrder(desc), first) && Ascending(RowOrder(desc), second)
    requires forall r :: r in first <==> r in second
    ensures first == second
    ensures n * limit >= |first| ==> Pages(second, limit, n) == first
  {
    RowOrderStrict(desc);
    AscendingUnique(RowOrder(desc), first, second);
    PagesTile(second, limit, n);
  }
}
