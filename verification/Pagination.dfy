/** The pagination loops over HTTP, by page, by offset and by cursor: what they ask any server,
    and what an honest one gives them. */
module Pagination {
  import opened Text

  const MAX_PAGES := 1000
  const DEFAULT_OFFSET_LIMIT := 100

  /** What the server says to one request: total is the page count or the record count, and 0
      or less when it says nothing. */
  datatype Answer<R> = Failed | Page(records: seq<R>, total: int, next: string)

  /** The answers in the order of the requests, as one list of records. */
  function Flatten<R>(answers: seq<Answer<R>>): seq<R> {
    if answers == [] then []
    else (if answers[0].Page? then answers[0].records else []) + Flatten(answers[1..])
  }

  /** A run returns an error after a failed answer, and otherwise all records it was given. */
  function Result<R>(answers: seq<Answer<R>>): Option<seq<R>> {
    if answers != [] && answers[|answers| - 1].Failed? then None else Some(Flatten(answers))
  }

  lemma {:induction false} FlattenConcat<R>(a: seq<Answer<R>>, b: seq<Answer<R>>)
    ensures Flatten(a + b) == Flatten(a) + Flatten(b)
  {
    if a == [] {
      assert a + b == b;
    } else {
      assert (a + b)[1..] == a[1..] + b;
      FlattenConcat(a[1..], b);
    }
  }

  predicate AllPages<R>(answers: seq<Answer<R>>) {
    forall i :: 0 <= i < |answers| ==> answers[i].Page?
  }

  /** Only the last answer of a run may be a failure. */
  predicate FailsLast<R>(answers: seq<Answer<R>>) {
    forall i :: 0 <= i < |answers| - 1 ==> answers[i].Page?
  }

  /** A loop under way: of the whole run, `got` is received and collected, `rest` to come. */
  ghost predicate Underway<R>(run: seq<Answer<R>>, got: nat, rest: seq<Answer<R>>, records: seq<R>) {
    got + |rest| == |run| && run[got..] == rest && AllPages(run[..got]) && records == Flatten(run[..got])
  }

  lemma UnderwayStart<R>(run: seq<Answer<R>>)
    ensures Underway(run, 0, run, [])
  {
    assert run[0..] == run && run[..0] == [];
  }

  lemma UnderwayPage<R>(run: seq<Answer<R>>, got: nat, rest: seq<Answer<R>>, records: seq<R>, answer: Answer<R>,
      rest': seq<Answer<R>>)
    requires Underway(run, got, rest, records) && rest == [answer] + rest' && answer.Page?
    ensures Underway(run, got + 1, rest', records + answer.records)
  {
    assert rest[0] == answer && rest[1..] == rest';
    assert run[got] == answer;
    assert run[..got + 1] == run[..got] + [answer];
    FlattenConcat(run[..got], [answer]);
    FlattenOne(answer);
    assert run[got + 1..] == run[got..][1..];
  }

  lemma FlattenOne<R>(answer: Answer<R>)
    ensures Flatten([answer]) == if answer.Page? then answer.records else []
  {
    assert [answer][1..] == [];
  }

  lemma UnderwayFailed<R>(run: seq<Answer<R>>, got: nat, rest: seq<Answer<R>>, records: seq<R>, answer: Answer<R>)
    requires Underway(run, got, rest, records) && rest == [answer] && answer.Failed?
    ensures Result(run) == None && |run| == got + 1
  {
    assert run[got..][0] == answer;
  }

  lemma UnderwayEnd<R>(run: seq<Answer<R>>, got: nat, rest: seq<Answer<R>>, records: seq<R>)
    requires Underway(run, got, rest, records) && rest == []
    ensures Result(run) == Some(records) && |run| == got
  {
    assert run[..got] == run;
    assert forall i :: 0 <= i < |run| ==> run[..got][i].Page?;
  }

  // By page number

  predicate LastByPage<R>(answer: Answer<R>, page: nat) {
    answer.Failed? || (answer.total > 0 && page >= answer.total) || answer.records == []
  }

  /** The answers to the requests for `page` and the pages after it; an unreliable server may
      go by the number of the request. */
  function PageRun<R>(server: (nat, int) -> Answer<R>, page: nat): seq<Answer<R>>
    requires page >= 1
    decreases MAX_PAGES + 1 - page
  {
    if page > MAX_PAGES then []
    else
      var answer := server(page - 1, page);
      if LastByPage(answer, page) then [answer] else [answer] + PageRun(server, page + 1)
  }

  method FetchPageBased<R>(server: (nat, int) -> Answer<R>) returns (records: Option<seq<R>>, requests: nat)
    ensures records == Result(PageRun(server, 1)) && requests == |PageRun(server, 1)|
  {
    hide Underway, Result, Flatten;
    ghost var run := PageRun(server, 1);
    var allRecords: seq<R> := [];
    var page := 1;
    requests := 0;
    UnderwayStart(run);
    while page <= MAX_PAGES
      invariant 1 <= page <= MAX_PAGES + 1 && requests == page - 1
      invariant Underway(run, requests, PageRun(server, page), allRecords)
      decreases MAX_PAGES + 1 - page
    {
      var answer := server(page - 1, page);
      requests := requests + 1;
      if answer.Failed? {
        UnderwayFailed(run, requests - 1, PageRun(server, page), allRecords, answer);
        return None, requests;
      }
      ghost var rest := if LastByPage(answer, page) then [] else PageRun(server, page + 1);
      UnderwayPage(run, requests - 1, PageRun(server, page), allRecords, answer, rest);
      allRecords := allRecords + answer.records;
      if (answer.total > 0 && page >= answer.total) || |answer.records| == 0 {
        UnderwayEnd(run, requests, rest, allRecords);
        return Some(allRecords), requests;
      }
      page := page + 1;
    }
    UnderwayEnd(run, requests, PageRun(server, page), allRecords);
    records := Some(allRecords);
  }

  /** Whatever the server says: at most MAX_PAGES requests, for pages 1, 2, 3 and so on, none
      after a failure, and every page received is in the result. */
  lemma {:induction false} AnyServerByPage<R>(server: (nat, int) -> Answer<R>, page: nat)
    requires 1 <= page <= MAX_PAGES + 1
    ensures var run := PageRun(server, page);
      && |run| <= MAX_PAGES + 1 - page && FailsLast(run)
      && forall i :: 0 <= i < |run| ==> run[i] == server(page - 1 + i, page + i)
    decreases MAX_PAGES + 1 - page
  {
    if page <= MAX_PAGES {
      AnyServerByPage(server, page + 1);
    }
  }

  /** A stable source cut into pages, and a page count that is right when given. */
  ghost predicate HonestByPage<R>(server: (nat, int) -> Answer<R>, pages: seq<seq<R>>) {
    forall n: nat, page: int {:trigger server(n, page)} :: page >= 1 ==>
      && server(n, page).Page?
      && server(n, page).records == (if page <= |pages| then pages[page - 1] else [])
      && (server(n, page).total > 0 ==> server(n, page).total == |pages|)
  }

  function Concat<R>(pages: seq<seq<R>>): seq<R> {
    if pages == [] then [] else pages[0] + Concat(pages[1..])
  }

  /** The pages before the first empty one. */
  function Leading<R>(pages: seq<seq<R>>): seq<seq<R>> {
    if pages == [] || pages[0] == [] then [] else [pages[0]] + Leading(pages[1..])
  }

  function Capped<R>(pages: seq<seq<R>>, n: nat): seq<seq<R>> {
    if n < |pages| then pages[..n] else pages
  }

  lemma PageTurn<R>(server: (nat, int) -> Answer<R>, page: nat)
    requires page >= 1
    ensures PageRun(server, page) ==
      if page > MAX_PAGES then []
      else if LastByPage(server(page - 1, page), page) then [server(page - 1, page)]
      else [server(page - 1, page)] + PageRun(server, page + 1)
  {
  }

  /** Against an honest server the result is the dataset up to its first empty page and up to
      the cap, in order and once. */
  lemma {:induction false} HonestPages<R>(server: (nat, int) -> Answer<R>, pages: seq<seq<R>>, page: nat)
    requires HonestByPage(server, pages) && 1 <= page <= MAX_PAGES + 1 && page <= |pages| + 1
    ensures Result(PageRun(server, page)) == Some(Concat(Capped(Leading(pages[page - 1..]), MAX_PAGES + 1 - page)))
    decreases MAX_PAGES + 1 - page
  {
    hide PageRun, Result, Flatten;
    PageTurn(server, page);
    NoAnswer<R>();
    var rest := pages[page - 1..];
    if page <= MAX_PAGES {
      var answer := server(page - 1, page);
      OneAnswer(answer);
      if rest != [] && rest[0] != [] {
        assert answer.records == rest[0];
        assert rest[1..] == pages[page..];
        LeadingCapped(rest, MAX_PAGES + 1 - page);
        if LastByPage(answer, page) {
          NothingLeading(rest[1..], MAX_PAGES - page);
          assert rest[0] + [] == rest[0];
        } else {
          HonestPages(server, pages, page + 1);
          Prepended(answer, PageRun(server, page + 1));
        }
      }
    }
  }

  lemma OneAnswer<R>(answer: Answer<R>)
    ensures answer.Page? ==> Result([answer]) == Some(answer.records)
  {
    FlattenOne(answer);
  }

  lemma Prepended<R>(answer: Answer<R>, run: seq<Answer<R>>)
    requires answer.Page? && Result(run).Some?
    ensures Result([answer] + run) == Some(answer.records + Result(run).value)
  {
    assert ([answer] + run)[1..] == run;
  }

  lemma LeadingCapped<R>(pages: seq<seq<R>>, n: nat)
    requires pages != [] && pages[0] != [] && n > 0
    ensures Concat(Capped(Leading(pages), n)) == pages[0] + Concat(Capped(Leading(pages[1..]), n - 1))
  {
    var all, rest := Leading(pages), Leading(pages[1..]);
    assert all[1..] == rest;
    assert Capped(all, n)[1..] == Capped(rest, n - 1);
  }

  lemma NothingLeading<R>(pages: seq<seq<R>>, n: nat)
    ensures pages == [] ==> Concat(Capped(Leading(pages), n)) == []
  {
  }

  lemma {:induction false} LeadingAll<R>(pages: seq<seq<R>>)
    requires forall i :: 0 <= i < |pages| ==> pages[i] != []
    ensures Leading(pages) == pages
  {
    if pages != [] {
      LeadingAll(pages[1..]);
    }
  }

  /** By page, within the cap and without an empty page, the dataset comes back complete. */
  lemma PagesComplete<R>(server: (nat, int) -> Answer<R>, pages: seq<seq<R>>)
    requires HonestByPage(server, pages)
    requires |pages| <= MAX_PAGES && forall i :: 0 <= i < |pages| ==> pages[i] != []
    ensures Result(PageRun(server, 1)) == Some(Concat(pages))
  {
    HonestPages(server, pages, 1);
    LeadingAll(pages);
    assert pages[0..] == pages;
  }

  // By offset

  function OffsetLimit(configured: int): int {
    if configured == 0 then DEFAULT_OFFSET_LIMIT else configured
  }

  /** The loop stops after this answer: `have` records were collected with it. */
  predicate LastByOffset<R>(answer: Answer<R>, limit: int, have: nat) {
    answer.Failed? || (answer.total > 0 && have >= answer.total) || answer.records == [] || |answer.records| < limit
  }

  function OffsetRun<R>(server: (nat, int) -> Answer<R>, limit: int, turn: nat, offset: int, have: nat): seq<Answer<R>>
    decreases MAX_PAGES * limit - offset
  {
    if limit <= 0 || offset >= MAX_PAGES * limit then []
    else
      var answer := server(turn, offset);
      var have' := have + if answer.Page? then |answer.records| else 0;
      if LastByOffset(answer, limit, have') then [answer]
      else [answer] + OffsetRun(server, limit, turn + 1, offset + limit, have')
  }

  method FetchOffsetBased<R>(server: (nat, int) -> Answer<R>, configured: int)
      returns (records: Option<seq<R>>, requests: nat)
    ensures var run := OffsetRun(server, OffsetLimit(configured), 0, 0, 0);
      records == Result(run) && requests == |run|
  {
    hide Underway, Result, Flatten;
    var limit := OffsetLimit(configured);
    ghost var run := OffsetRun(server, limit, 0, 0, 0);
    var allRecords: seq<R> := [];
    var offset := 0;
    requests := 0;
    UnderwayStart(run);
    while offset < MAX_PAGES * limit
      invariant offset >= 0
      invariant Underway(run, requests, OffsetRun(server, limit, requests, offset, |allRecords|), allRecords)
      decreases MAX_PAGES * limit - offset
    {
      ghost var left := OffsetRun(server, limit, requests, offset, |allRecords|);
      var answer := server(requests, offset);
      requests := requests + 1;
      if answer.Failed? {
        UnderwayFailed(run, requests - 1, left, allRecords, answer);
        return None, requests;
      }
      ghost var have := |allRecords| + |answer.records|;
      ghost var rest :=
        if LastByOffset(answer, limit, have) then [] else OffsetRun(server, limit, requests, offset + limit, have);
      UnderwayPage(run, requests - 1, left, allRecords, answer, rest);
      allRecords := allRecords + answer.records;
      if answer.total > 0 && |allRecords| >= answer.total {
        UnderwayEnd(run, requests, rest, allRecords);
        return Some(allRecords), requests;
      }
      if |answer.records| == 0 || |answer.records| < limit {
        UnderwayEnd(run, requests, rest, allRecords);
        return Some(allRecords), requests;
      }
      offset := offset + limit;
    }
    UnderwayEnd(run, requests, OffsetRun(server, limit, requests, offset, |allRecords|), allRecords);
    records := Some(allRecords);
  }

  /** One turn less: the room left is a whole number of pages. */
  lemma RoomForPage(room: int, turns: nat, limit: int)
    requires limit > 0 && room == turns * limit
    ensures room > 0 <==> turns > 0
    ensures turns > 0 ==> room >= limit && room - limit == (turns - 1) * limit
  {
    if turns > 0 {
      assert turns * limit == (turns - 1) * limit + limit;
    }
  }

  /** At most MAX_PAGES requests whatever the server says, each `limit` further, none after a
      failure, and every page received is in the result. */
  lemma {:induction false} AnyServerByOffset<R>(server: (nat, int) -> Answer<R>, limit: int, turn: nat, offset: int,
      have: nat)
    requires limit > 0 ==> turn <= MAX_PAGES && MAX_PAGES * limit - offset == (MAX_PAGES - turn) * limit
    ensures var run := OffsetRun(server, limit, turn, offset, have);
      && (if limit > 0 then |run| <= MAX_PAGES - turn else run == []) && FailsLast(run)
      && forall i :: 0 <= i < |run| ==> run[i] == server(turn + i, offset + i * limit)
    decreases MAX_PAGES * limit - offset
  {
    if limit > 0 {
      RoomForPage(MAX_PAGES * limit - offset, MAX_PAGES - turn, limit);
      if offset < MAX_PAGES * limit {
        var answer := server(turn, offset);
        var have' := have + if answer.Page? then |answer.records| else 0;
        AnyServerByOffset(server, limit, turn + 1, offset + limit, have');
        var rest := OffsetRun(server, limit, turn + 1, offset + limit, have');
        var run := OffsetRun(server, limit, turn, offset, have);
        forall i | 0 <= i < |run| ensures run[i] == server(turn + i, offset + i * limit) {
          if i > 0 {
            assert run[i] == rest[i - 1];
            assert offset + limit + (i - 1) * limit == offset + i * limit;
          }
        }
      }
    }
  }

  /** data[offset..offset+limit], as far as there is data. */
  function Window<R>(data: seq<R>, offset: nat, limit: nat): seq<R> {
    if offset >= |data| then []
    else if offset + limit >= |data| then data[offset..]
    else data[offset..offset + limit]
  }

  ghost predicate HonestByOffset<R>(server: (nat, int) -> Answer<R>, data: seq<R>, limit: nat) {
    forall n: nat, offset: int {:trigger server(n, offset)} :: offset >= 0 ==>
      && server(n, offset).Page? && server(n, offset).records == Window(data, offset, limit)
      && (server(n, offset).total > 0 ==> server(n, offset).total == |data|)
  }

  function Take<R>(data: seq<R>, n: nat): seq<R> {
    if n < |data| then data[..n] else data
  }

  lemma OffsetTurn<R>(server: (nat, int) -> Answer<R>, limit: int, turn: nat, offset: int, have: nat)
    requires limit > 0
    ensures var answer := server(turn, offset);
      var have' := have + if answer.Page? then |answer.records| else 0;
      OffsetRun(server, limit, turn, offset, have) ==
      if offset >= MAX_PAGES * limit then []
      else if LastByOffset(answer, limit, have') then [answer]
      else [answer] + OffsetRun(server, limit, turn + 1, offset + limit, have')
  {
  }

  /** Against an honest server the result is the dataset up to the cap, in order and once. */
  lemma {:induction false} HonestOffsets<R>(server: (nat, int) -> Answer<R>, data: seq<R>, limit: nat, turn: nat,
      offset: nat)
    requires limit > 0 && HonestByOffset(server, data, limit) && turn <= MAX_PAGES && offset <= |data|
    requires MAX_PAGES * limit - offset == (MAX_PAGES - turn) * limit
    ensures offset <= MAX_PAGES * limit
    ensures Result(OffsetRun(server, limit, turn, offset, offset)) ==
      Some(Take(data[offset..], MAX_PAGES * limit - offset))
    decreases MAX_PAGES - turn
  {
    hide Result, Flatten, Take, OffsetRun;
    OffsetTurn(server, limit, turn, offset, offset);
    RoomForPage(MAX_PAGES * limit - offset, MAX_PAGES - turn, limit);
    TakeEnds(data[offset..], MAX_PAGES * limit - offset);
    var rest := data[offset..];
    if turn < MAX_PAGES {
      var answer := server(turn, offset);
      OneAnswer(answer);
      if offset + limit >= |data| {
        assert answer.records == rest;
        if |answer.records| == limit && !LastByOffset(answer, limit, |data|) {
          HonestOffsets(server, data, limit, turn + 1, offset + limit);
          Prepended(answer, OffsetRun(server, limit, turn + 1, offset + limit, offset + limit));
          TakeSplit(rest, limit, MAX_PAGES * limit - offset);
          assert data[offset + limit..] == rest[limit..];
        }
      } else {
        HonestOffsets(server, data, limit, turn + 1, offset + limit);
        Prepended(answer, OffsetRun(server, limit, turn + 1, offset + limit, offset + limit));
        TakeSplit(rest, limit, MAX_PAGES * limit - offset);
        assert answer.records == rest[..limit];
        assert data[offset + limit..] == rest[limit..];
      }
    } else {
      NoAnswer<R>();
    }
  }

  lemma NoAnswer<R>()
    ensures Result<R>([]) == Some([])
  {
  }

  lemma TakeEnds<R>(rest: seq<R>, room: nat)
    ensures |rest| <= room ==> Take(rest, room) == rest
    ensures room == 0 ==> Take(rest, room) == []
  {
  }

  lemma TakeSplit<R>(rest: seq<R>, limit: nat, room: nat)
    requires limit <= |rest| && limit <= room
    ensures Take(rest, room) == rest[..limit] + Take(rest[limit..], room - limit)
    ensures limit == |rest| ==> rest[..limit] == rest
  {
  }

  /** By offset, every record within MAX_PAGES times the limit comes back; the dataset is
      complete exactly when it has no more. */
  lemma OffsetsComplete<R>(server: (nat, int) -> Answer<R>, data: seq<R>, configured: int)
    requires OffsetLimit(configured) > 0 && HonestByOffset(server, data, OffsetLimit(configured))
    ensures Result(OffsetRun(server, OffsetLimit(configured), 0, 0, 0)) == Some(data) <==>
      |data| <= MAX_PAGES * OffsetLimit(configured)
  {
    var limit := OffsetLimit(configured);
    HonestOffsets(server, data, limit, 0, 0);
    assert data[0..] == data;
  }

  // By cursor

  function CursorRun<R>(server: (nat, string) -> Answer<R>, turn: nat, cursor: string): seq<Answer<R>>
    decreases MAX_PAGES - turn
  {
    if turn >= MAX_PAGES then []
    else
      var answer := server(turn, cursor);
      if answer.Failed? || answer.next == "" then [answer]
      else [answer] + CursorRun(server, turn + 1, answer.next)
  }

  method FetchCursorBased<R>(server: (nat, string) -> Answer<R>) returns (records: Option<seq<R>>, requests: nat)
    ensures records == Result(CursorRun(server, 0, "")) && requests == |CursorRun(server, 0, "")|
  {
    hide Underway, Result, Flatten;
    ghost var run := CursorRun(server, 0, "");
    var allRecords: seq<R> := [];
    var cursor := "";
    requests := 0;
    UnderwayStart(run);
    while requests < MAX_PAGES
      invariant requests <= MAX_PAGES
      invariant Underway(run, requests, CursorRun(server, requests, cursor), allRecords)
      decreases MAX_PAGES - requests
    {
      ghost var left := CursorRun(server, requests, cursor);
      var answer := server(requests, cursor);
      requests := requests + 1;
      if answer.Failed? {
        UnderwayFailed(run, requests - 1, left, allRecords, answer);
        return None, requests;
      }
      ghost var rest := if answer.next == "" then [] else CursorRun(server, requests, answer.next);
      UnderwayPage(run, requests - 1, left, allRecords, answer, rest);
      allRecords := allRecords + answer.records;
      if answer.next == "" {
        UnderwayEnd(run, requests, rest, allRecords);
        return Some(allRecords), requests;
      }
      cursor := answer.next;
    }
    UnderwayEnd(run, requests, CursorRun(server, requests, cursor), allRecords);
    records := Some(allRecords);
  }

  /** Each request carries the cursor the answer before it gave. */
  lemma {:induction false} AnyServerByCursor<R>(server: (nat, string) -> Answer<R>, turn: nat, cursor: string)
    requires turn <= MAX_PAGES
    ensures var run := CursorRun(server, turn, cursor);
      && |run| <= MAX_PAGES - turn && FailsLast(run)
      && forall i :: 0 <= i < |run| ==> run[i] == server(turn + i, if i == 0 then cursor else run[i - 1].next)
    decreases MAX_PAGES - turn
  {
    if turn < MAX_PAGES {
      var answer := server(turn, cursor);
      if !(answer.Failed? || answer.next == "") {
        AnyServerByCursor(server, turn + 1, answer.next);
        var rest := CursorRun(server, turn + 1, answer.next);
        var run := [answer] + rest;
        forall i | 0 <= i < |run| ensures run[i] == server(turn + i, if i == 0 then cursor else run[i - 1].next) {
          if i > 0 { assert run[i] == rest[i - 1]; }
        }
      }
    }
  }

  /** A stable source of pages, each but the last with a token for the next. */
  ghost predicate HonestByCursor<R>(server: (nat, string) -> Answer<R>, pages: seq<seq<R>>, tokens: seq<string>) {
    && |pages| == |tokens| >= 1 && tokens[0] == "" && (forall i :: 1 <= i < |tokens| ==> tokens[i] != "")
    && forall n: nat, i: nat {:trigger server(n, tokens[i])} :: i < |pages| ==>
      server(n, tokens[i]).Page? && server(n, tokens[i]).records == pages[i]
      && server(n, tokens[i]).next == (if i + 1 < |tokens| then tokens[i + 1] else "")
  }

  lemma HonestCursorAnswer<R>(server: (nat, string) -> Answer<R>, pages: seq<seq<R>>, tokens: seq<string>, turn: nat)
    returns (answer: Answer<R>)
    requires HonestByCursor(server, pages, tokens) && turn < |pages|
    ensures |tokens| == |pages| && answer == server(turn, tokens[turn]) && answer.Page?
    ensures answer.records == pages[turn]
    ensures if turn + 1 < |pages| then answer.next == tokens[turn + 1] != "" else answer.next == ""
  {
    answer := server(turn, tokens[turn]);
  }

  lemma {:induction false} HonestCursors<R>(server: (nat, string) -> Answer<R>, pages: seq<seq<R>>,
      tokens: seq<string>, turn: nat)
    requires HonestByCursor(server, pages, tokens) && turn <= MAX_PAGES && turn < |pages|
    ensures Result(CursorRun(server, turn, tokens[turn])) == Some(Concat(Capped(pages[turn..], MAX_PAGES - turn)))
    decreases MAX_PAGES - turn
  {
    hide HonestByCursor;
    var rest := pages[turn..];
    if turn < MAX_PAGES {
      var answer := HonestCursorAnswer(server, pages, tokens, turn);
      OneAnswer(answer);
      var taken := Capped(rest, MAX_PAGES - turn);
      assert taken[0] == rest[0] == answer.records;
      if turn + 1 < |pages| {
        assert rest[1..] == pages[turn + 1..];
        HonestCursors(server, pages, tokens, turn + 1);
        Prepended(answer, CursorRun(server, turn + 1, tokens[turn + 1]));
        assert taken[1..] == Capped(rest[1..], MAX_PAGES - turn - 1);
      } else {
        assert taken[1..] == [];
      }
    } else {
      assert Capped(rest, 0) == [];
    }
  }

  /** By cursor, the first MAX_PAGES pages come back, in order and once, empty ones included. */
  lemma CursorsComplete<R>(server: (nat, string) -> Answer<R>, pages: seq<seq<R>>, tokens: seq<string>)
    requires HonestByCursor(server, pages, tokens)
    ensures Result(CursorRun(server, 0, "")) == Some(Concat(Capped(pages, MAX_PAGES)))
  {
    HonestCursors(server, pages, tokens, 0);
    assert pages[0..] == pages;
  }
}
