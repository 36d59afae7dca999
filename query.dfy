/**
 * The list endpoint's query engine: owner filter, optional case-insensitive
 * `to_account` filter, optional one-day `date` window, a sort on one column
 * in either direction, then OFFSET/LIMIT. Everything here is pure.
 */
module Query {
  import opened Wrappers
  import Models
  import Strings

  type Tx = Models.Transaction

  /** Seconds in a day: the width of the `date` filter's window. */
  const Day: int := 86400

  /** The `sort_by` query parameter, already checked against `^(date|amount|contractor)$`. */
  datatype SortBy = Date | Amount | Contractor

  /** The `order` query parameter, already checked against `^(asc|desc)$`. */
  datatype Order = Asc | Desc

  /** A stored column a query can sort on. */
  datatype Column = DateColumn | AmountColumn | ToAccountColumn

  /** Which records the list endpoint returns and in what order: every query parameter but the page window. */
  datatype View = View(sortBy: SortBy, order: Order, contractor: Option<string>, date: Option<int>)

  /** The list endpoint's query parameters: the page window `skip`/`limit` over a view. */
  datatype Params = Params(skip: int, limit: int, view: View)

  /** The ranges the framework enforces before the handler runs. */
  predicate ValidParams(p: Params)
  {
    p.skip >= 0 && 1 <= p.limit <= 100
  }

  /** The public sort key names a column; `contractor` stands for `to_account`. */
  function ColumnOf(s: SortBy): Column
  {
    match s
    case Date => DateColumn
    case Amount => AmountColumn
    case Contractor => ToAccountColumn
  }

  /** Midnight of the day holding `t`. */
  function DayStart(t: int): (r: int)
    ensures r <= t < r + Day
    ensures r % Day == 0
  {
    t - t % Day
  }

  // ---------------------------------------------------------------------
  // Filtering
  // ---------------------------------------------------------------------

  /** One `WHERE` condition of the query. */
  datatype Criterion =
    | OwnerIs(owner: int)
    | ToAccountLike(needle: string)
    | DateIn(start: int, end: int)

  predicate Satisfies(c: Criterion, t: Tx)
  {
    match c
    case OwnerIs(owner) => t.ownerId == owner
    case ToAccountLike(needle) => Strings.ContainsIgnoringCase(t.toAccount, needle)
    case DateIn(start, end) => start <= t.date < end
  }

  /** Keeps exactly the records that satisfy `c`, each as often as it occurs. */
  function Filter(s: seq<Tx>, c: Criterion): (r: seq<Tx>)
    ensures forall t :: multiset(r)[t] == if Satisfies(c, t) then multiset(s)[t] else 0
  {
    if s == [] then []
    else
      assert s == [s[0]] + s[1..];
      (if Satisfies(c, s[0]) then [s[0]] else []) + Filter(s[1..], c)
  }

  /** What the list endpoint promises of every record it may return. */
  ghost predicate Matches(owner: int, contractor: Option<string>, date: Option<int>, t: Tx)
  {
    && t.ownerId == owner
    && (contractor.Some? && contractor.value != [] ==>
          exists i :: Strings.OccursAt(Strings.Lower(t.toAccount), Strings.Lower(contractor.value), i))
    && (date.Some? ==> DayStart(date.value) <= t.date < DayStart(date.value) + Day)
  }

  lemma LikeIsOccurrence(needle: string)
    ensures forall t :: Satisfies(ToAccountLike(needle), t) <==>
      exists i :: Strings.OccursAt(Strings.Lower(t.toAccount), Strings.Lower(needle), i)
  {
    forall t: Tx {
      Strings.ContainsIgnoringCaseIffOccurs(t.toAccount, needle);
    }
  }

  /** The filter chain, step by step as the handler builds it. */
  function Selected(s: seq<Tx>, owner: int, contractor: Option<string>, date: Option<int>): seq<Tx>
  {
    var owned := Filter(s, OwnerIs(owner));
    var named :=
      if contractor.Some? && contractor.value != [] then
        Filter(owned, ToAccountLike(contractor.value))
      else owned;
    if date.Some? then
      Filter(named, DateIn(DayStart(date.value), DayStart(date.value) + Day))
    else named
  }

  /** The filter chain keeps exactly the records that match, each as often as it is stored. */
  lemma SelectedMatches(s: seq<Tx>, owner: int, contractor: Option<string>, date: Option<int>)
    ensures forall t :: multiset(Selected(s, owner, contractor, date))[t] ==
                        if Matches(owner, contractor, date, t) then multiset(s)[t] else 0
  {
    if contractor.Some? {
      LikeIsOccurrence(contractor.value);
    }
  }

  // ---------------------------------------------------------------------
  // Ordering
  // ---------------------------------------------------------------------

  /** `a`'s value in column `c` is at most `b`'s. */
  predicate KeyLe(c: Column, a: Tx, b: Tx)
  {
    match c
    case DateColumn => a.date <= b.date
    case AmountColumn => a.amount <= b.amount
    case ToAccountColumn => Strings.LexLe(a.toAccount, b.toAccount)
  }

  /** `a` may come before `b`: non-decreasing for `asc`, non-increasing for `desc`. */
  predicate Precedes(c: Column, o: Order, a: Tx, b: Tx)
  {
    if o == Asc then KeyLe(c, a, b) else KeyLe(c, b, a)
  }

  predicate SortedBy(s: seq<Tx>, c: Column, o: Order)
  {
    forall i, j :: 0 <= i < j < |s| ==> Precedes(c, o, s[i], s[j])
  }

  lemma PrecedesTotal(c: Column, o: Order, a: Tx, b: Tx)
    ensures Precedes(c, o, a, b) || Precedes(c, o, b, a)
  {
    if c == ToAccountColumn {
      Strings.LexLeTotal(a.toAccount, b.toAccount);
    }
  }

  lemma PrecedesTransitive(c: Column, o: Order, a: Tx, b: Tx, d: Tx)
    requires Precedes(c, o, a, b) && Precedes(c, o, b, d)
    ensures Precedes(c, o, a, d)
  {
    if c == ToAccountColumn {
      if o == Asc {
        Strings.LexLeTransitive(a.toAccount, b.toAccount, d.toAccount);
      } else {
        Strings.LexLeTransitive(d.toAccount, b.toAccount, a.toAccount);
      }
    }
  }

  /** Putting `x` in front of a sorted run that it precedes keeps it sorted. */
  lemma {:induction false} PrependSorted(c: Column, o: Order, x: Tx, s: seq<Tx>)
    requires SortedBy(s, c, o)
    requires forall t :: t in s ==> Precedes(c, o, x, t)
    ensures SortedBy([x] + s, c, o)
  {
    forall i, j | 0 <= i < j < |[x] + s|
      ensures Precedes(c, o, ([x] + s)[i], ([x] + s)[j])
    {
      if i > 0 {
        assert ([x] + s)[i] == s[i - 1] && ([x] + s)[j] == s[j - 1];
      } else {
        assert ([x] + s)[j] in s;
      }
    }
  }

  /** The head of a sorted sequence precedes everything in it. */
  lemma {:induction false} HeadPrecedesAll(c: Column, o: Order, x: Tx, s: seq<Tx>)
    requires SortedBy(s, c, o) && s != []
    requires Precedes(c, o, x, s[0])
    ensures forall t :: t in s ==> Precedes(c, o, x, t)
  {
    forall t | t in s
      ensures Precedes(c, o, x, t)
    {
      var j :| 0 <= j < |s| && s[j] == t;
      if j > 0 {
        PrecedesTransitive(c, o, x, s[0], t);
      }
    }
  }

  /** Inserts `x` in front of the first element it precedes. */
  function Insert(c: Column, o: Order, x: Tx, s: seq<Tx>): seq<Tx>
  {
    if s == [] then [x]
    else if Precedes(c, o, x, s[0]) then [x] + s
    else [s[0]] + Insert(c, o, x, s[1..])
  }

  lemma {:induction false} InsertPermutes(c: Column, o: Order, x: Tx, s: seq<Tx>)
    ensures multiset(Insert(c, o, x, s)) == multiset(s) + multiset{x}
  {
    if s != [] && !Precedes(c, o, x, s[0]) {
      InsertPermutes(c, o, x, s[1..]);
      assert s == [s[0]] + s[1..];
    }
  }

  /** Inserting into a sorted sequence keeps it sorted. */
  lemma {:induction false} InsertSorted(c: Column, o: Order, x: Tx, s: seq<Tx>)
    requires SortedBy(s, c, o)
    ensures SortedBy(Insert(c, o, x, s), c, o)
  {
    if s == [] {
    } else if Precedes(c, o, x, s[0]) {
      HeadPrecedesAll(c, o, x, s);
      PrependSorted(c, o, x, s);
    } else {
      var rest := Insert(c, o, x, s[1..]);
      assert SortedBy(s[1..], c, o);
      InsertSorted(c, o, x, s[1..]);
      InsertPermutes(c, o, x, s[1..]);
      PrecedesTotal(c, o, x, s[0]);
      forall t | t in rest
        ensures Precedes(c, o, s[0], t)
      {
        assert t in multiset(rest);
        if t != x {
          assert t in multiset(s[1..]);
          var j :| 0 <= j < |s[1..]| && s[1..][j] == t;
          assert s[j + 1] == t;
        }
      }
      PrependSorted(c, o, s[0], rest);
    }
  }

  /** Insertion sort. Ties keep no promised order. */
  function Sort(c: Column, o: Order, s: seq<Tx>): seq<Tx>
  {
    if s == [] then [] else Insert(c, o, s[0], Sort(c, o, s[1..]))
  }

  /** The sort returns a sorted permutation of its input. */
  lemma {:induction false} SortSortsAndPermutes(c: Column, o: Order, s: seq<Tx>)
    ensures SortedBy(Sort(c, o, s), c, o)
    ensures multiset(Sort(c, o, s)) == multiset(s)
  {
    if s != [] {
      SortSortsAndPermutes(c, o, s[1..]);
      InsertSorted(c, o, s[0], Sort(c, o, s[1..]));
      InsertPermutes(c, o, s[0], Sort(c, o, s[1..]));
      assert s == [s[0]] + s[1..];
    }
  }

  /** The full ordered result, before OFFSET/LIMIT. */
  function Ordered(s: seq<Tx>, owner: int, v: View): seq<Tx>
  {
    Sort(ColumnOf(v.sortBy), v.order, Selected(s, owner, v.contractor, v.date))
  }

  /**
   * The full ordered result is sorted on the chosen column in the chosen
   * direction, and is a permutation of exactly the matching records.
   */
  lemma OrderedIsSortedSelection(s: seq<Tx>, owner: int, v: View)
    ensures SortedBy(Ordered(s, owner, v), ColumnOf(v.sortBy), v.order)
    ensures forall t :: multiset(Ordered(s, owner, v))[t] ==
                        if Matches(owner, v.contractor, v.date, t) then multiset(s)[t] else 0
    ensures forall t :: t in Ordered(s, owner, v) <==> t in s && Matches(owner, v.contractor, v.date, t)
  {
    SortSortsAndPermutes(ColumnOf(v.sortBy), v.order, Selected(s, owner, v.contractor, v.date));
    SelectedMatches(s, owner, v.contractor, v.date);
    var r := Ordered(s, owner, v);
    assert forall t :: t in r <==> t in multiset(r);
  }

  // ---------------------------------------------------------------------
  // Pagination
  // ---------------------------------------------------------------------

  function Min(a: int, b: int): int
  {
    if a <= b then a else b
  }

  /** `OFFSET skip LIMIT limit`: the run of at most `limit` elements starting at `skip`. */
  function Page<T>(s: seq<T>, skip: nat, limit: nat): (r: seq<T>)
    ensures |r| <= limit
    ensures skip >= |s| ==> r == []
    ensures skip < |s| ==> |r| == Min(limit, |s| - skip)
    ensures forall i :: 0 <= i < |r| ==> skip + i < |s| && r[i] == s[skip + i]
    ensures forall x :: x in r ==> x in s
  {
    s[Min(skip, |s|)..Min(skip + limit, |s|)]
  }

  lemma PageSorted(s: seq<Tx>, skip: nat, limit: nat, c: Column, o: Order)
    requires SortedBy(s, c, o)
    ensures SortedBy(Page(s, skip, limit), c, o)
  {
  }

  /** The number of records `n` pages of size `limit` span, counted page by page. */
  function Span(n: nat, limit: nat): nat
    decreases n
  {
    if n == 0 then 0 else limit + Span(n - 1, limit)
  }

  lemma {:induction false} SpanIsProduct(n: nat, limit: nat)
    ensures Span(n, limit) == n * limit
    decreases n
  {
    if n > 0 {
      SpanIsProduct(n - 1, limit);
    }
  }

  /** `n` consecutive pages, the first at `skip`, each starting where the previous one ends. */
  function Pages<T>(s: seq<T>, skip: nat, limit: nat, n: nat): seq<T>
    decreases n
  {
    if n == 0 then [] else Page(s, skip, limit) + Pages(s, skip + limit, limit, n - 1)
  }

  lemma PagesUnfold<T>(s: seq<T>, skip: nat, limit: nat, n: nat)
    requires n > 0
    ensures Pages(s, skip, limit, n) == Page(s, skip, limit) + Pages(s, skip + limit, limit, n - 1)
  {
  }

  /** Consecutive pages tile a slice of the sequence, with no gap and no overlap. */
  lemma {:induction false} PagesAreSlice<T>(s: seq<T>, skip: nat, limit: nat, n: nat)
    ensures Pages(s, skip, limit, n) == s[Min(skip, |s|)..Min(skip + Span(n, limit), |s|)]
    decreases n
  {
    if n > 0 {
      PagesAreSlice(s, skip + limit, limit, n - 1);
      var a, b, c := Min(skip, |s|), Min(skip + limit, |s|), Min(skip + Span(n, limit), |s|);
      assert Page(s, skip, limit) == s[a..b];
      assert s[a..b] + s[b..c] == s[a..c];
    }
  }

  /** Pages from offset 0 give a prefix; once they span the sequence, all of it. */
  lemma PagesFromStart<T>(s: seq<T>, limit: nat, n: nat)
    ensures Pages(s, 0, limit, n) == s[..Min(Span(n, limit), |s|)]
    ensures Span(n, limit) >= |s| ==> Pages(s, 0, limit, n) == s
  {
    PagesAreSlice(s, 0, limit, n);
    assert s[0..Min(Span(n, limit), |s|)] == s[..Min(Span(n, limit), |s|)];
    if Span(n, limit) >= |s| {
      assert s[..|s|] == s;
    }
  }

  // ---------------------------------------------------------------------
  // The whole query
  // ---------------------------------------------------------------------

  /** `list_transactions`' query: the page of the ordered matching records. */
  function ListQuery(s: seq<Tx>, owner: int, p: Params): (r: seq<Tx>)
    requires ValidParams(p)
    ensures |r| <= p.limit
    ensures p.skip >= |Ordered(s, owner, p.view)| ==> r == []
  {
    Page(Ordered(s, owner, p.view), p.skip, p.limit)
  }

  /** Every record the list query returns is a stored record that matches the filters. */
  lemma ListQueryMatches(s: seq<Tx>, owner: int, p: Params)
    requires ValidParams(p)
    ensures forall t :: t in ListQuery(s, owner, p) ==> t in s && Matches(owner, p.view.contractor, p.view.date, t)
  {
    OrderedIsSortedSelection(s, owner, p.view);
  }

  /** Every page the list query returns is sorted on the chosen column in the chosen direction. */
  lemma ListQuerySorted(s: seq<Tx>, owner: int, p: Params)
    requires ValidParams(p)
    ensures SortedBy(ListQuery(s, owner, p), ColumnOf(p.view.sortBy), p.view.order)
  {
    OrderedIsSortedSelection(s, owner, p.view);
    PageSorted(Ordered(s, owner, p.view), p.skip, p.limit, ColumnOf(p.view.sortBy), p.view.order);
  }

  /** `n` calls of the list query, each asking for the page after the previous one. */
  function ListPages(s: seq<Tx>, owner: int, p: Params, n: nat): seq<Tx>
    requires ValidParams(p)
    decreases n
  {
    if n == 0 then []
    else ListQuery(s, owner, p) + ListPages(s, owner, Params(p.skip + p.limit, p.limit, p.view), n - 1)
  }

  /**
   * Paging through the list endpoint with `skip = 0, limit, 2 * limit, ...`
   * returns the ordered matching records in order, without gap or overlap;
   * enough pages return all of them.
   */
  lemma ListPagesPartition(s: seq<Tx>, owner: int, p: Params, n: nat)
    requires ValidParams(p) && p.skip == 0
    ensures 0 <= n * p.limit <= |Ordered(s, owner, p.view)| ==> ListPages(s, owner, p, n) == Ordered(s, owner, p.view)[..n * p.limit]
    ensures n * p.limit >= |Ordered(s, owner, p.view)| ==> ListPages(s, owner, p, n) == Ordered(s, owner, p.view)
  {
    SpanIsProduct(n, p.limit);
    ListPagesArePages(s, owner, p, n);
    PagesFromStart(Ordered(s, owner, p.view), p.limit, n);
  }

  /** The list endpoint's pages are the pages of the full ordered result. */
  lemma {:induction false} ListPagesArePages(s: seq<Tx>, owner: int, p: Params, n: nat)
    requires ValidParams(p)
    ensures ListPages(s, owner, p, n) == Pages(Ordered(s, owner, p.view), p.skip, p.limit, n)
    decreases n
  {
    if n > 0 {
      var q, all := Params(p.skip + p.limit, p.limit, p.view), Ordered(s, owner, p.view);
      assert ListPages(s, owner, q, n - 1) == Pages(all, q.skip, p.limit, n - 1) by {
        ListPagesArePages(s, owner, q, n - 1);
      }
      PagesUnfold(all, p.skip, p.limit, n);
    }
  }
}


