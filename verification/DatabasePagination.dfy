/** The pagination loops of the database input, by limit/offset and by cursor, against a
    stable dataset. */
module DatabasePagination {
  import opened Pagination
  import opened Text

  const DEFAULT_QUERY_LIMIT := 1000

  function QueryLimit(configured: int): (r: nat)
    ensures r > 0
  {
    if configured <= 0 then DEFAULT_QUERY_LIMIT else configured
  }

  /** How many queries it takes to come to a page that is not full. */
  function Queries(size: nat, limit: nat): (n: nat)
    requires limit > 0
    ensures n > 0
  {
    if size < limit then 1 else 1 + Queries(size - limit, limit)
  }

  predicate Answered(up: nat -> bool, from: nat, to: nat) {
    forall i :: from <= i < to ==> up(i)
  }

  /** LIMIT/OFFSET over a stable dataset; `up` says which queries the database answers. */
  method FetchLimitOffset<R>(data: seq<R>, configured: int, up: nat -> bool) returns (records: Option<seq<R>>)
    ensures records == if Answered(up, 0, Queries(|data|, QueryLimit(configured))) then Some(data) else None
  {
    var limit := QueryLimit(configured);
    ghost var all := Queries(|data|, limit);
    var allRecords: seq<R> := [];
    var offset := 0;
    var queries := 0;
    while true
      invariant offset <= |data| && allRecords == data[..offset]
      invariant queries + Queries(|data| - offset, limit) == all
      invariant Answered(up, 0, queries)
      decreases |data| - offset
    {
      if !up(queries) {
        return None;
      }
      var page := Window(data, offset, limit);
      WindowAppends(data, offset, limit);
      allRecords := allRecords + page;
      queries := queries + 1;
      if |page| < limit {
        return Some(allRecords);
      }
      offset := offset + limit;
    }
  }

  lemma WindowAppends<R>(data: seq<R>, offset: nat, limit: nat)
    requires offset <= |data|
    ensures var page := Window(data, offset, limit);
      if |page| < limit then data[..offset] + page == data && |data| - offset < limit
      else offset + limit <= |data| && data[..offset] + page == data[..offset + limit]
  {
  }

  // A database walked by a cursor column

  datatype Row<R> = Row(key: int, rest: R)

  predicate Ordered<R>(data: seq<Row<R>>) {
    forall i, j :: 0 <= i < j < |data| ==> data[i].key <= data[j].key
  }

  /** The rows past the cursor; all of them before there is one. */
  function Past<R>(data: seq<Row<R>>, cursor: Option<int>): (r: seq<Row<R>>)
    ensures |r| <= |data|
    ensures cursor.None? ==> r == data
  {
    if cursor.None? then data
    else if data == [] then []
    else if data[0].key > cursor.value then [data[0]] + Past(data[1..], cursor)
    else Past(data[1..], cursor)
  }

  /** What the cursor loop collects from the rows `left` still past its cursor. */
  function Collected<R>(left: seq<Row<R>>, limit: nat, follows: bool): seq<Row<R>>
    requires limit > 0
    decreases |left|
  {
    if |left| < limit then left
    else
      var page := left[..limit];
      if !follows then page
      else
        PastShorter(left, limit);
        page + Collected(Past(left, Some(page[limit - 1].key)), limit, follows)
  }

  lemma PastShorter<R>(left: seq<Row<R>>, limit: nat)
    requires 0 < limit <= |left|
    ensures |Past(left, Some(left[limit - 1].key))| < |left|
  {
    PastDrops(left, left[limit - 1].key, limit - 1);
  }

  lemma {:induction false} PastDrops<R>(left: seq<Row<R>>, key: int, i: nat)
    requires i < |left| && left[i].key <= key
    ensures |Past(left, Some(key))| < |left|
  {
    if i > 0 {
      PastDrops(left[1..], key, i - 1);
    }
  }

  /** Rows past a later cursor are past the earlier one too. */
  lemma {:induction false} PastTwice<R>(data: seq<Row<R>>, c: Option<int>, d: int)
    requires c.Some? ==> c.value <= d
    ensures Past(Past(data, c), Some(d)) == Past(data, Some(d))
  {
    if c.Some? && data != [] {
      PastTwice(data[1..], c, d);
      if data[0].key > c.value {
        assert Past(data, c)[1..] == Past(data[1..], c);
      }
    }
  }

  lemma {:induction false} PastKeys<R>(data: seq<Row<R>>, c: int)
    ensures forall i :: 0 <= i < |Past(data, Some(c))| ==> Past(data, Some(c))[i].key > c
  {
    if data != [] {
      PastKeys(data[1..], c);
    }
  }

  /** One full page followed by its cursor. */
  lemma CursorTurn<R>(data: seq<Row<R>>, cursor: Option<int>, limit: nat)
    requires 0 < limit <= |Past(data, cursor)|
    ensures var left := Past(data, cursor);
      var key := left[limit - 1].key;
      && |Past(data, Some(key))| < |left|
      && Collected(left, limit, true) == left[..limit] + Collected(Past(data, Some(key)), limit, true)
  {
    var left := Past(data, cursor);
    var key := left[limit - 1].key;
    if cursor.Some? { PastKeys(data, cursor.value); }
    PastTwice(data, cursor, key);
    PastShorter(left, limit);
  }

  lemma LastPage<R>(left: seq<Row<R>>, limit: nat, follows: bool)
    requires limit > 0 && (|left| < limit || !follows)
    ensures Collected(left, limit, follows) == Window(left, 0, limit)
  {
  }

  /** A turn of the loop: the page and what follows it, appended in one go or one by one. */
  lemma Appended<R>(records: seq<R>, page: seq<R>, next: seq<R>)
    ensures records + (page + next) == (records + page) + next
  {
  }

  /** How many queries the cursor loop makes. */
  function CursorQueries<R>(left: seq<Row<R>>, limit: nat, follows: bool): (n: nat)
    requires limit > 0
    ensures n > 0
    decreases |left|
  {
    if |left| < limit || !follows then 1
    else
      PastShorter(left, limit);
      1 + CursorQueries(Past(left, Some(left[limit - 1].key)), limit, follows)
  }

  /** What the loop has done: `queries` answered, `records` collected, `left` to come. */
  ghost predicate WalkedSo<R>(data: seq<Row<R>>, limit: nat, follows: bool, records: seq<Row<R>>, queries: nat,
      left: seq<Row<R>>)
    requires limit > 0
  {
    && records + Collected(left, limit, follows) == Collected(data, limit, follows)
    && queries + CursorQueries(left, limit, follows) == CursorQueries(data, limit, follows)
  }

  lemma WalkedOn<R>(data: seq<Row<R>>, cursor: Option<int>, limit: nat, records: seq<Row<R>>, queries: nat)
    requires 0 < limit <= |Past(data, cursor)| && WalkedSo(data, limit, true, records, queries, Past(data, cursor))
    ensures var left := Past(data, cursor);
      var key := left[limit - 1].key;
      && |Past(data, Some(key))| < |left|
      && WalkedSo(data, limit, true, records + left[..limit], queries + 1, Past(data, Some(key)))
  {
    var left := Past(data, cursor);
    var key := left[limit - 1].key;
    CursorTurn(data, cursor, limit);
    if cursor.Some? { PastKeys(data, cursor.value); }
    PastTwice(data, cursor, key);
    Appended(records, left[..limit], Collected(Past(data, Some(key)), limit, true));
  }

  lemma WalkedAll<R>(data: seq<Row<R>>, limit: nat, follows: bool, records: seq<Row<R>>, queries: nat,
      left: seq<Row<R>>)
    requires limit > 0 && (|left| < limit || !follows) && WalkedSo(data, limit, follows, records, queries, left)
    ensures records + Window(left, 0, limit) == Collected(data, limit, follows)
    ensures queries + 1 == CursorQueries(data, limit, follows)
  {
    LastPage(left, limit, follows);
  }

  lemma WalkedSome<R>(data: seq<Row<R>>, limit: nat, follows: bool, records: seq<Row<R>>, queries: nat,
      left: seq<Row<R>>)
    requires limit > 0 && WalkedSo(data, limit, follows, records, queries, left)
    ensures queries < CursorQueries(data, limit, follows)
  {
    hide CursorQueries, Collected;
  }

  /** The cursor loop over a stable, finite dataset; `cursorField` empty means none is set, and
      `up` says which queries the database answers. */
  method FetchCursor<R>(data: seq<Row<R>>, configured: int, cursorField: string, up: nat -> bool)
    returns (records: Option<seq<Row<R>>>)
    ensures var limit, follows := QueryLimit(configured), cursorField != "";
      records ==
        if Answered(up, 0, CursorQueries(data, limit, follows)) then Some(Collected(data, limit, follows)) else None
  {
    hide Collected, Window, Past, CursorQueries, WalkedSo;
    var limit := QueryLimit(configured);
    var follows := cursorField != "";
    var allRecords: seq<Row<R>> := [];
    var queries := 0;
    var cursor: Option<int> := None;
    WalkStarts(data, limit, follows);
    while true
      invariant WalkedSo(data, limit, follows, allRecords, queries, Past(data, cursor))
      invariant Answered(up, 0, queries)
      decreases |Past(data, cursor)|
    {
      ghost var left := Past(data, cursor);
      WalkedSome(data, limit, follows, allRecords, queries, left);
      if !up(queries) {
        return None;
      }
      var page := Window(Past(data, cursor), 0, limit);
      FirstWindow(left, limit);
      if |page| < limit {
        WalkedAll(data, limit, follows, allRecords, queries, left);
        return Some(allRecords + page);
      }
      if follows && |page| > 0 {
        WalkedOn(data, cursor, limit, allRecords, queries);
        cursor := Some(page[|page| - 1].key);
      } else {
        WalkedAll(data, limit, follows, allRecords, queries, left);
        return Some(allRecords + page);
      }
      allRecords := allRecords + page;
      queries := queries + 1;
    }
  }

  lemma WalkStarts<R>(data: seq<Row<R>>, limit: nat, follows: bool)
    requires limit > 0
    ensures WalkedSo(data, limit, follows, [], 0, data)
  {
  }

  lemma FirstWindow<R>(left: seq<R>, limit: nat)
    ensures Window(left, 0, limit) == if |left| < limit then left else left[..limit]
  {
  }

  /** No two rows on either side of a page boundary share the cursor value. */
  predicate CleanCuts<R>(data: seq<Row<R>>, limit: nat)
    requires limit > 0
    decreases |data|
  {
    |data| <= limit || (data[limit - 1].key < data[limit].key && CleanCuts(data[limit..], limit))
  }

  lemma {:induction false} PastOrdered<R>(data: seq<Row<R>>, i: nat)
    requires Ordered(data) && i < |data| && (i + 1 < |data| ==> data[i].key < data[i + 1].key)
    ensures Past(data, Some(data[i].key)) == data[i + 1..]
  {
    if i == 0 {
      assert Past(data, Some(data[0].key)) == Past(data[1..], Some(data[0].key));
      AllPast(data[1..], data[0].key);
    } else {
      assert data[1..][i - 1] == data[i];
      PastOrdered(data[1..], i - 1);
      assert data[1..][i..] == data[i + 1..];
    }
  }

  lemma {:induction false} AllPast<R>(data: seq<Row<R>>, c: int)
    requires forall i :: 0 <= i < |data| ==> data[i].key > c
    ensures Past(data, Some(c)) == data
  {
    if data != [] {
      AllPast(data[1..], c);
    }
  }

  lemma {:induction false} PastBound<R>(data: seq<Row<R>>, key: int, n: nat)
    requires n <= |data| && forall i :: 0 <= i < n ==> data[i].key <= key
    ensures |Past(data, Some(key))| <= |data| - n
  {
    if n > 0 {
      PastBound(data[1..], key, n - 1);
    }
  }

  lemma {:induction false} PastStaysOrdered<R>(data: seq<Row<R>>, key: int)
    requires Ordered(data)
    ensures Ordered(Past(data, Some(key)))
  {
    if data != [] {
      PastStaysOrdered(data[1..], key);
      if data[0].key > key {
        AllPast(data[1..], key);
      }
    }
  }

  lemma {:induction false} CollectedBound<R>(left: seq<Row<R>>, limit: nat)
    requires limit > 0 && Ordered(left)
    ensures |Collected(left, limit, true)| <= |left|
    decreases |left|
  {
    if |left| >= limit {
      var key := left[limit - 1].key;
      PastShorter(left, limit);
      PastBound(left, key, limit);
      PastStaysOrdered(left, key);
      CollectedBound(Past(left, Some(key)), limit);
    }
  }

  /** The cursor walk over rows ordered by their cursor column returns the dataset exactly when
      no page boundary falls between two rows with the same value: always, when it is unique. */
  lemma {:induction false} CursorCompleteIffCleanCuts<R>(data: seq<Row<R>>, limit: nat)
    requires limit > 0 && Ordered(data)
    ensures Collected(data, limit, true) == data <==> CleanCuts(data, limit)
    decreases |data|
  {
    if |data| >= limit {
      var key := data[limit - 1].key;
      var next := Past(data, Some(key));
      PastShorter(data, limit);
      if |data| == limit || key < data[limit].key {
        PastOrdered(data, limit - 1);
        assert next == data[limit..];
        CursorCompleteIffCleanCuts(next, limit);
        assert data == data[..limit] + data[limit..];
        assert Collected(data, limit, true)[limit..] == Collected(next, limit, true);
      } else {
        PastBound(data, key, limit + 1);
        PastStaysOrdered(data, key);
        CollectedBound(next, limit);
        assert |Collected(data, limit, true)| < |data|;
      }
    }
  }

  lemma {:induction false} UniqueCutsClean<R>(data: seq<Row<R>>, limit: nat)
    requires limit > 0 && forall i, j :: 0 <= i < j < |data| ==> data[i].key < data[j].key
    ensures CleanCuts(data, limit) && Collected(data, limit, true) == data
    decreases |data|
  {
    if |data| > limit {
      UniqueCutsClean(data[limit..], limit);
    }
    CursorCompleteIffCleanCuts(data, limit);
  }

  /** Without a cursor column the walk stops after its first full page. */
  lemma NoCursorFirstPage<R>(data: seq<Row<R>>, limit: nat)
    requires limit > 0
    ensures Collected(data, limit, false) == data <==> |data| <= limit
  {
    if |data| >= limit {
      assert |Collected(data, limit, false)| == limit;
    }
  }

  /** Two rows with one cursor value on either side of a page boundary: the second is lost. */
  lemma TornPageWitness()
    ensures Collected([Row(1, 'a'), Row(1, 'b')], 1, true) == [Row(1, 'a')]
  {
    var data := [Row(1, 'a'), Row(1, 'b')];
    assert data[1..] == [Row(1, 'b')] && data[1..][1..] == [];
    assert Past(data, Some(1)) == [];
    assert data[..1] == [Row(1, 'a')];
  }
}
