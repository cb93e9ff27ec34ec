/**
 Listing operations page by page: `OperationRepository.List` with the id of the last row of one page
 as the cursor of the next. Ids are compared character by character, which for ids made of "op-" and
 lower-case hexadecimal digits is the order of the table's collation.
 */
module KeysetPaging {
  import opened Common
  import opened OperationStatus
  import opened OperationRepository

  /** Comparison of ids, character by character. */
  predicate Less(a: string, b: string) {
    b != "" && (a == "" || a[0] < b[0] || (a[0] == b[0] && Less(a[1..], b[1..])))
  }

  lemma {:induction false} LessTransitive(a: string, b: string, c: string)
    requires Less(a, b) && Less(b, c)
    ensures Less(a, c)
  {
    if a != "" && a[0] == b[0] && b[0] == c[0] {
      LessTransitive(a[1..], b[1..], c[1..]);
    }
  }

  lemma {:induction false} LessIrreflexive(a: string)
    ensures !Less(a, a)
  {
    if a != "" {
      LessIrreflexive(a[1..]);
    }
  }

  lemma {:induction false} LessTotal(a: string, b: string)
    ensures a == b || Less(a, b) || Less(b, a)
  {
    if a != "" && b != "" && a[0] == b[0] {
      LessTotal(a[1..], b[1..]);
      assert a == [a[0]] + a[1..] && b == [b[0]] + b[1..];
    }
  }

  /** The first difference decides, and a proper prefix comes first. */
  predicate DiffersAt(a: string, b: string, k: nat) {
    && k <= |a| && k < |b| && a[..k] == b[..k]
    && (k == |a| || a[k] < b[k])
  }

  lemma SameHead(a: string, b: string, k: nat)
    requires a != "" && b != "" && a[0] == b[0]
    ensures DiffersAt(a, b, k + 1) <==> DiffersAt(a[1..], b[1..], k)
  {
    if k < |a| && k + 1 < |b| {
      assert a[..k + 1] == [a[0]] + a[1..][..k] && b[..k + 1] == [b[0]] + b[1..][..k];
      assert a[1..][..k] == a[..k + 1][1..] && b[1..][..k] == b[..k + 1][1..];
    }
  }

  lemma HeadsAgree(a: string, b: string, k: nat)
    requires DiffersAt(a, b, k)
    ensures k == 0 || (a != "" && b != "" && a[0] == b[0])
  {
    if k > 0 {
      assert a[0] == a[..k][0] && b[0] == b[..k][0];
    }
  }

  lemma {:induction false} LessExactly(a: string, b: string)
    ensures Less(a, b) <==> exists k: nat :: DiffersAt(a, b, k)
  {
    if a != "" && b != "" && a[0] == b[0] {
      LessExactly(a[1..], b[1..]);
      if k: nat :| DiffersAt(a[1..], b[1..], k) {
        SameHead(a, b, k);
      }
      if k: nat :| DiffersAt(a, b, k) {
        SameHead(a, b, k - 1);
      }
    } else {
      assert Less(a, b) <==> DiffersAt(a, b, 0);
      if k: nat :| DiffersAt(a, b, k) {
        HeadsAgree(a, b, k);
      }
    }
  }

  datatype Filter = Filter(status: Option<Status>, processor: Option<string>)

  predicate Selects(f: Filter, op: Operation) {
    && (f.status.Some? ==> op.status == f.status.value)
    && (f.processor.Some? ==> op.header.processor == f.processor.value)
  }

  predicate Past(cursor: Option<string>, id: string) {
    cursor.Some? ==> Less(cursor.value, id)
  }

  predicate Wanted(t: Table, f: Filter, cursor: Option<string>, id: string) {
    id in t && Selects(f, t[id]) && Past(cursor, id)
  }

  function WantedIds(t: Table, f: Filter, cursor: Option<string>): set<string> {
    set id | id in t && Wanted(t, f, cursor, id)
  }

  predicate Keyed(t: Table) {
    forall id :: id in t ==> t[id].id == id
  }

  function PageLimit(limit: int): nat {
    if limit <= 0 then 50 else limit
  }

  predicate Sorted(ops: seq<Operation>) {
    forall i, j :: 0 <= i < j < |ops| ==> Less(ops[i].id, ops[j].id)
  }

  predicate Has(ops: seq<Operation>, id: string) {
    exists i :: 0 <= i < |ops| && ops[i].id == id
  }

  /**
   The result of the query, told without a sort: strictly ascending, made of wanted rows, at most
   `limit` of them, and leaving out only rows behind a full page.
   */
  ghost predicate IsPage(t: Table, f: Filter, cursor: Option<string>, limit: nat, ops: seq<Operation>) {
    && Sorted(ops)
    && |ops| <= limit
    && (forall i :: 0 <= i < |ops| ==> Wanted(t, f, cursor, ops[i].id) && ops[i] == t[ops[i].id])
    && (forall id :: Wanted(t, f, cursor, id) ==> Has(ops, id) || (|ops| == limit && BehindAll(ops, id)))
  }

  predicate BehindAll(ops: seq<Operation>, id: string) {
    forall i :: 0 <= i < |ops| ==> Less(ops[i].id, id)
  }

  /** The least of some ids, found by looking at all of them. */
  method LeastId(ids: set<string>) returns (least: string)
    requires ids != {}
    ensures least in ids && forall id :: id in ids && id != least ==> Less(least, id)
  {
    assert exists id :: id in ids by {
      if forall id :: id !in ids {
        assert false;
      }
    }
    least :| least in ids;
    var todo := ids - {least};
    while exists id :: id in todo
      invariant todo <= ids && least in ids && least !in todo
      invariant forall id :: id in ids && id !in todo && id != least ==> Less(least, id)
      decreases todo
    {
      var id :| id in todo;
      todo := todo - {id};
      LessTotal(id, least);
      if Less(id, least) {
        forall other | other in ids && other !in todo && other != id
          ensures Less(id, other)
        {
          if other != least {
            LessTransitive(id, least, other);
          }
        }
        least := id;
      }
    }
  }

  /** The query's conditions: status, processor, id behind the cursor. */
  predicate MeetsQuery(op: Operation, f: Filter, cursor: Option<string>) {
    && (f.status == None || f.status == Some(op.status))
    && (f.processor == None || f.processor == Some(op.header.processor))
    && (cursor == None || Less(cursor.value, op.id))
  }

  /** `List`: the rows of one page, collected in id order. Without a positive limit a page holds 50 rows. */
  method List(t: Table, f: Filter, cursor: Option<string>, limit: int) returns (ops: seq<Operation>)
    requires Keyed(t)
    ensures IsPage(t, f, cursor, PageLimit(limit), ops)
    ensures forall i, j :: 0 <= i < j < |ops| ==> Less(ops[i].id, ops[j].id)
    ensures |ops| <= if limit > 0 then limit else 50
    ensures forall i :: 0 <= i < |ops| ==> ops[i].id in t && ops[i] == t[ops[i].id] && MeetsQuery(ops[i], f, cursor)
    ensures forall id :: id in t && MeetsQuery(t[id], f, cursor) && !Has(ops, id) ==>
              |ops| == (if limit > 0 then limit else 50) && forall i :: 0 <= i < |ops| ==> Less(ops[i].id, id)
  {
    var max := PageLimit(limit);
    ops := [];
    var rest := WantedIds(t, f, cursor);
    while |ops| < max && rest != {}
      invariant |ops| <= max && Sorted(ops)
      invariant forall i :: 0 <= i < |ops| ==> Wanted(t, f, cursor, ops[i].id) && ops[i] == t[ops[i].id]
      invariant rest <= WantedIds(t, f, cursor)
      invariant forall id :: id in rest ==> BehindAll(ops, id)
      invariant forall id :: Wanted(t, f, cursor, id) ==> Has(ops, id) || id in rest
      decreases rest
    {
      var id := LeastId(rest);
      ghost var before := ops;
      ops := ops + [t[id]];
      rest := rest - {id};
      forall x | Wanted(t, f, cursor, x)
        ensures Has(ops, x) || x in rest
      {
        if Has(before, x) {
          var i :| 0 <= i < |before| && before[i].id == x;
          assert ops[i].id == x;
        } else if x == id {
          assert ops[|before|].id == x;
        }
      }
    }
  }

  /** Where two pages agree so far, neither goes on with a smaller row than the other. */
  lemma NoSmallerRow(t: Table, f: Filter, cursor: Option<string>, limit: nat, a: seq<Operation>, b: seq<Operation>, n: nat)
    requires IsPage(t, f, cursor, limit, a) && IsPage(t, f, cursor, limit, b)
    requires n < |a| && n <= |b| && a[..n] == b[..n]
    ensures n < |b| && !Less(a[n].id, b[n].id)
  {
    var id := a[n].id;
    assert Wanted(t, f, cursor, id);
    LessIrreflexive(id);
    if Has(b, id) {
      var j :| 0 <= j < |b| && b[j].id == id;
      assert n <= j;
      if n < j && Less(id, b[n].id) {
        LessTransitive(id, b[n].id, b[j].id);
      }
    } else {
      assert BehindAll(b, id);
      if n < |b| && Less(id, b[n].id) {
        LessTransitive(id, b[n].id, id);
      }
    }
  }

  lemma {:induction false} PagesAgree(t: Table, f: Filter, cursor: Option<string>, limit: nat, a: seq<Operation>,
                                      b: seq<Operation>, n: nat)
    requires IsPage(t, f, cursor, limit, a) && IsPage(t, f, cursor, limit, b) && n <= |a|
    ensures n <= |b| && a[..n] == b[..n]
  {
    if n > 0 {
      var k := n - 1;
      PagesAgree(t, f, cursor, limit, a, b, k);
      NoSmallerRow(t, f, cursor, limit, a, b, k);
      NoSmallerRow(t, f, cursor, limit, b, a, k);
      LessTotal(a[k].id, b[k].id);
      assert a[..n] == a[..k] + [a[k]] && b[..n] == b[..k] + [b[k]];
    }
  }

  /** The description leaves no choice: a page is determined by table, filter, cursor and limit. */
  lemma PageUnique(t: Table, f: Filter, cursor: Option<string>, limit: nat, a: seq<Operation>, b: seq<Operation>)
    requires IsPage(t, f, cursor, limit, a) && IsPage(t, f, cursor, limit, b)
    ensures a == b
  {
    PagesAgree(t, f, cursor, limit, a, b, |a|);
    PagesAgree(t, f, cursor, limit, b, a, |b|);
  }

  // ----- a client that pages through the table while it changes -----

  /** After a full page the client asks for the rows behind the last one it got. */
  function CursorAfter(pages: seq<seq<Operation>>): Option<string> {
    if pages == [] || pages[|pages| - 1] == [] then None
    else
      var page := pages[|pages| - 1];
      Some(page[|page| - 1].id)
  }

  ghost predicate PageAt(tables: seq<Table>, f: Filter, limit: nat, pages: seq<seq<Operation>>, k: nat) {
    && k < |pages| && k < |tables|
    && IsPage(tables[k], f, CursorAfter(pages[..k]), limit, pages[k])
    && (k + 1 < |pages| ==> |pages[k]| == limit)
  }

  /** Page `k` was read from table `k`; every page but the last was full. */
  ghost predicate Session(tables: seq<Table>, f: Filter, limit: nat, pages: seq<seq<Operation>>) {
    && |tables| == |pages| && limit > 0
    && (forall k {:trigger PageAt(tables, f, limit, pages, k)} :: 0 <= k < |pages| ==> PageAt(tables, f, limit, pages, k))
  }

  function Flat(pages: seq<seq<Operation>>): seq<Operation> {
    if pages == [] then [] else Flat(pages[..|pages| - 1]) + pages[|pages| - 1]
  }

  lemma SessionPrefix(tables: seq<Table>, f: Filter, limit: nat, pages: seq<seq<Operation>>)
    requires Session(tables, f, limit, pages) && pages != []
    ensures var n := |pages| - 1;
            && Session(tables[..n], f, limit, pages[..n])
            && (n > 0 ==> |pages[n - 1]| == limit)
            && IsPage(tables[n], f, CursorAfter(pages[..n]), limit, pages[n])
  {
    var n := |pages| - 1;
    var init := pages[..n];
    assert PageAt(tables, f, limit, pages, n);
    if n > 0 {
      assert PageAt(tables, f, limit, pages, n - 1);
    }
    forall k: nat | k < n
      ensures PageAt(tables[..n], f, limit, init, k)
    {
      assert PageAt(tables, f, limit, pages, k);
      assert init[..k] == pages[..k];
    }
  }

  /** Everything in `page` lies behind the last row of `a`. */
  lemma AppendSorted(a: seq<Operation>, page: seq<Operation>)
    requires Sorted(a) && Sorted(page)
    requires a != [] ==> forall j :: 0 <= j < |page| ==> Less(a[|a| - 1].id, page[j].id)
    ensures Sorted(a + page)
  {
    var flat := a + page;
    forall i, j | 0 <= i < j < |flat|
      ensures Less(flat[i].id, flat[j].id)
    {
      if i < |a| - 1 && |a| <= j {
        LessTransitive(a[i].id, a[|a| - 1].id, page[j - |a|].id);
      }
    }
  }

  /** No row is handed out twice, and rows come in ascending order, across all pages of a session. */
  lemma {:induction false} NoRowTwice(tables: seq<Table>, f: Filter, limit: nat, pages: seq<seq<Operation>>)
    requires Session(tables, f, limit, pages)
    ensures Sorted(Flat(pages))
    ensures pages == [] ==> Flat(pages) == []
    ensures pages != [] && pages[|pages| - 1] != [] ==>
              Flat(pages) != [] && CursorAfter(pages) == Some(Flat(pages)[|Flat(pages)| - 1].id)
  {
    if pages != [] {
      var n := |pages| - 1;
      var init, page := pages[..n], pages[n];
      SessionPrefix(tables, f, limit, pages);
      NoRowTwice(tables[..n], f, limit, init);
      var a := Flat(init);
      forall j | 0 <= j < |page| && a != []
        ensures Less(a[|a| - 1].id, page[j].id)
      {
        assert Wanted(tables[n], f, CursorAfter(init), page[j].id);
      }
      AppendSorted(a, page);
    }
  }

  /** The row is there, selected, in every table the session reads. */
  ghost predicate Steady(tables: seq<Table>, f: Filter, id: string) {
    forall k :: 0 <= k < |tables| ==> id in tables[k] && Selects(f, tables[k][id])
  }

  lemma HasAppend(a: seq<Operation>, b: seq<Operation>, id: string)
    ensures Has(a, id) || Has(b, id) ==> Has(a + b, id)
  {
    if Has(a, id) {
      var i :| 0 <= i < |a| && a[i].id == id;
      assert (a + b)[i].id == id;
    } else if Has(b, id) {
      var i :| 0 <= i < |b| && b[i].id == id;
      assert (a + b)[|a| + i].id == id;
    }
  }

  lemma {:induction false} SteadyFoundOrAhead(tables: seq<Table>, f: Filter, limit: nat, pages: seq<seq<Operation>>, id: string)
    requires Session(tables, f, limit, pages) && Steady(tables, f, id)
    ensures Has(Flat(pages), id) || pages == [] || (|pages[|pages| - 1]| == limit && Past(CursorAfter(pages), id))
  {
    if pages != [] {
      var n := |pages| - 1;
      var init, page := pages[..n], pages[n];
      SessionPrefix(tables, f, limit, pages);
      SteadyFoundOrAhead(tables[..n], f, limit, init, id);
      HasAppend(Flat(init), page, id);
      if !Has(Flat(init), id) && !Has(page, id) {
        assert Wanted(tables[n], f, CursorAfter(init), id);
        assert BehindAll(page, id);
      }
    }
  }

  /**
   A session that ends on a short page has handed out every row that was there and selected in all
   tables it read, whatever was inserted or changed in between.
   */
  lemma SteadyRowsAreListed(tables: seq<Table>, f: Filter, limit: nat, pages: seq<seq<Operation>>, id: string)
    requires Session(tables, f, limit, pages) && Steady(tables, f, id)
    requires pages != [] && |pages[|pages| - 1]| < limit
    ensures Has(Flat(pages), id)
  {
    SteadyFoundOrAhead(tables, f, limit, pages, id);
  }

  // ----- a table that does not change -----

  predicate Fixed(tables: seq<Table>, t: Table) {
    forall k :: 0 <= k < |tables| ==> tables[k] == t
  }

  lemma {:induction false} FlatRowsAreWanted(tables: seq<Table>, f: Filter, limit: nat, pages: seq<seq<Operation>>, t: Table)
    requires Session(tables, f, limit, pages) && Fixed(tables, t)
    ensures forall i :: 0 <= i < |Flat(pages)| ==>
              Wanted(t, f, None, Flat(pages)[i].id) && Flat(pages)[i] == t[Flat(pages)[i].id]
  {
    if pages != [] {
      SessionPrefix(tables, f, limit, pages);
      FlatRowsAreWanted(tables[..|pages| - 1], f, limit, pages[..|pages| - 1], t);
    }
  }

  /** A finished session over a fixed table lists exactly the selected rows, each once, in order. */
  lemma FixedTableListedExactly(tables: seq<Table>, f: Filter, limit: nat, pages: seq<seq<Operation>>, t: Table, id: string)
    requires Session(tables, f, limit, pages) && Fixed(tables, t)
    requires pages != [] && |pages[|pages| - 1]| < limit
    ensures Sorted(Flat(pages))
    ensures Has(Flat(pages), id) <==> id in t && Selects(f, t[id])
    ensures forall i :: 0 <= i < |Flat(pages)| ==> Flat(pages)[i].id in t && Flat(pages)[i] == t[Flat(pages)[i].id]
  {
    NoRowTwice(tables, f, limit, pages);
    FlatRowsAreWanted(tables, f, limit, pages, t);
    if id in t && Selects(f, t[id]) {
      assert Steady(tables, f, id);
      SteadyRowsAreListed(tables, f, limit, pages, id);
    }
  }

  lemma {:induction false} SortedIdsCount(ops: seq<Operation>, ids: set<string>)
    requires Sorted(ops) && forall i :: 0 <= i < |ops| ==> ops[i].id in ids
    ensures |ops| <= |ids|
  {
    if ops != [] {
      var n := |ops| - 1;
      forall i | 0 <= i < n
        ensures ops[..n][i].id in ids - {ops[n].id}
      {
        LessIrreflexive(ops[n].id);
      }
      SortedIdsCount(ops[..n], ids - {ops[n].id});
    }
  }

  lemma {:induction false} FlatLength(pages: seq<seq<Operation>>, limit: nat)
    requires forall k :: 0 <= k < |pages| ==> |pages[k]| == limit
    ensures |Flat(pages)| == |pages| * limit
  {
    if pages != [] {
      var n := |pages| - 1;
      FlatLength(pages[..n], limit);
      assert (n + 1) * limit == n * limit + limit;
    }
  }

  /** Paging over a fixed table ends: there are no more full pages than the selected rows fill. */
  lemma FullPagesAreBounded(tables: seq<Table>, f: Filter, limit: nat, pages: seq<seq<Operation>>, t: Table)
    requires Session(tables, f, limit, pages) && Fixed(tables, t)
    requires pages != [] ==> |pages[|pages| - 1]| == limit
    ensures |pages| * limit <= |WantedIds(t, f, None)|
  {
    forall k | 0 <= k < |pages|
      ensures |pages[k]| == limit
    {
      assert PageAt(tables, f, limit, pages, k);
    }
    NoRowTwice(tables, f, limit, pages);
    FlatRowsAreWanted(tables, f, limit, pages, t);
    SortedIdsCount(Flat(pages), WantedIds(t, f, None));
    FlatLength(pages, limit);
  }
}
