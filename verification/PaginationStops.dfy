/** When the pagination loops stop, whatever the server says. */
module PaginationStops {
  import opened Pagination

  /** Nothing in the answer to the request for `page` ends the loop. */
  predicate GoesOnByPage<R>(answer: Answer<R>, page: nat) {
    answer.Page? && answer.records != [] && !(0 < answer.total <= page)
  }

  /** By page, the loop stops at its first answer that failed, was empty, or was that of the last
      page by the total given with it, and after a thousand pages at the latest. */
  lemma {:induction false} PagesStop<R>(server: (nat, int) -> Answer<R>, page: nat)
    requires 1 <= page <= 1000
    ensures var run := PageRun(server, page);
      && 1 <= |run| <= 1001 - page
      && (forall i :: 0 <= i < |run| - 1 ==> GoesOnByPage(run[i], page + i))
      && (GoesOnByPage(run[|run| - 1], page + |run| - 1) ==> |run| == 1001 - page)
    decreases 1000 - page
  {
    var answer := server(page - 1, page);
    PageTurn(server, page);
    if GoesOnByPage(answer, page) {
      if page < 1000 {
        PagesStop(server, page + 1);
        var rest := PageRun(server, page + 1);
        var run := [answer] + rest;
        forall i | 0 <= i < |run| - 1 ensures GoesOnByPage(run[i], page + i) {
          if i > 0 { assert run[i] == rest[i - 1]; }
        }
        assert run[|run| - 1] == rest[|rest| - 1];
      } else {
        PageTurn(server, 1001);
      }
    }
  }

  /** Nothing in the answer ends the loop, `have` records being collected with it. */
  predicate GoesOnByOffset<R>(answer: Answer<R>, limit: int, have: nat) {
    answer.Page? && answer.records != [] && |answer.records| >= limit && !(0 < answer.total <= have)
  }

  /** The records of the first `n` answers. */
  function Collected<R>(run: seq<Answer<R>>, n: nat): nat
    requires n <= |run|
  {
    |Flatten(run[..n])|
  }

  lemma CollectedMore<R>(answer: Answer<R>, rest: seq<Answer<R>>, n: nat)
    requires n <= |rest|
    ensures Collected([answer] + rest, n + 1) == (if answer.Page? then |answer.records| else 0) + Collected(rest, n)
  {
    var run := [answer] + rest;
    assert run[..n + 1] == [answer] + rest[..n];
    assert ([answer] + rest[..n])[1..] == rest[..n];
  }

  /** The run is not empty, went on only after answers that did not end it, and stopped at one
      that did or after `most`. */
  ghost predicate StopsByOffset<R>(run: seq<Answer<R>>, limit: int, have: nat, most: nat) {
    && 1 <= |run| <= most
    && (forall i :: 0 <= i < |run| - 1 ==> GoesOnByOffset(run[i], limit, have + Collected(run, i + 1)))
    && (GoesOnByOffset(run[|run| - 1], limit, have + Collected(run, |run|)) ==> |run| == most)
  }

  /** By offset, the loop stops at its first answer that failed, was empty or short, or completed
      the total given with it, and after a thousand windows at the latest. */
  lemma {:induction false} OffsetsStop<R>(server: (nat, int) -> Answer<R>, limit: int, turn: nat, offset: int,
      have: nat)
    requires limit > 0 && turn < 1000 && 1000 * limit - offset == (1000 - turn) * limit
    ensures StopsByOffset(OffsetRun(server, limit, turn, offset, have), limit, have, 1000 - turn)
    decreases 1000 - turn
  {
    var answer := server(turn, offset);
    var have' := have + if answer.Page? then |answer.records| else 0;
    WindowsLeft(limit, turn, offset);
    hide OffsetRun, StopsByOffset, GoesOnByOffset;
    OffsetNext(server, limit, turn, offset, have, answer, have');
    if !GoesOnByOffset(answer, limit, have') {
      OffsetsStopHere(answer, limit, have, have', 1000 - turn);
    } else if turn < 999 {
      OffsetsStop(server, limit, turn + 1, offset + limit, have');
      var rest := OffsetRun(server, limit, turn + 1, offset + limit, have');
      OffsetsStopMore(answer, rest, limit, have, have', 999 - turn);
    } else {
      NoWindow(server, limit, 1000, offset + limit, have');
      assert [answer] + [] == [answer];
      OffsetsStopHere(answer, limit, have, have', 1);
    }
  }

  lemma WindowsLeft(limit: int, turn: nat, offset: int)
    requires limit > 0 && turn < 1000 && 1000 * limit - offset == (1000 - turn) * limit
    ensures offset < 1000 * limit
    ensures 1000 * limit - (offset + limit) == (1000 - (turn + 1)) * limit
    ensures turn == 999 ==> offset + limit >= 1000 * limit
  {
  }

  lemma OffsetNext<R>(server: (nat, int) -> Answer<R>, limit: int, turn: nat, offset: int, have: nat,
      answer: Answer<R>, have': nat)
    requires 0 < limit && offset < 1000 * limit && answer == server(turn, offset)
    requires have' == have + (if answer.Page? then |answer.records| else 0)
    ensures !GoesOnByOffset(answer, limit, have') ==> OffsetRun(server, limit, turn, offset, have) == [answer]
    ensures GoesOnByOffset(answer, limit, have') ==>
      OffsetRun(server, limit, turn, offset, have)
        == [answer] + OffsetRun(server, limit, turn + 1, offset + limit, have')
  {
    OffsetTurn(server, limit, turn, offset, have);
    hide OffsetRun;
  }

  lemma NoWindow<R>(server: (nat, int) -> Answer<R>, limit: int, turn: nat, offset: int, have: nat)
    requires 0 < limit && offset >= 1000 * limit
    ensures OffsetRun(server, limit, turn, offset, have) == []
  {
  }

  lemma OffsetsStopHere<R>(answer: Answer<R>, limit: int, have: nat, have': nat, most: nat)
    requires have' == have + (if answer.Page? then |answer.records| else 0) && most >= 1
    requires GoesOnByOffset(answer, limit, have') ==> most == 1
    ensures StopsByOffset([answer], limit, have, most)
  {
    hide GoesOnByOffset, Collected;
    CollectedNone<R>();
    CollectedMore(answer, [], 0);
    assert [answer] + [] == [answer];
  }

  lemma CollectedNone<R>()
    ensures Collected<R>([], 0) == 0
  {
    assert Flatten<R>([]) == [];
  }

  lemma OffsetsStopMore<R>(answer: Answer<R>, rest: seq<Answer<R>>, limit: int, have: nat, have': nat, most: nat)
    requires StopsByOffset(rest, limit, have', most) && GoesOnByOffset(answer, limit, have')
    requires have' == have + (if answer.Page? then |answer.records| else 0)
    ensures StopsByOffset([answer] + rest, limit, have, most + 1)
  {
    var run := [answer] + rest;
    hide Collected, GoesOnByOffset;
    CollectedMore(answer, rest, |rest|);
    forall i | 0 <= i < |run| - 1 ensures GoesOnByOffset(run[i], limit, have + Collected(run, i + 1)) {
      CollectedMore(answer, rest, i);
      if i > 0 {
        assert run[i] == rest[i - 1];
      } else {
        CollectedStart(rest);
      }
    }
    assert run[|run| - 1] == rest[|rest| - 1];
  }

  lemma CollectedStart<R>(run: seq<Answer<R>>)
    ensures Collected(run, 0) == 0
  {
    assert run[..0] == [];
  }

  /** By cursor, the loop stops at its first answer that failed or gave no cursor, and after a
      thousand requests at the latest; an empty page does not stop it. */
  lemma {:induction false} CursorsStop<R>(server: (nat, string) -> Answer<R>, turn: nat, cursor: string)
    requires turn < 1000
    ensures var run := CursorRun(server, turn, cursor);
      && 1 <= |run| <= 1000 - turn
      && (forall i :: 0 <= i < |run| - 1 ==> run[i].Page? && run[i].next != "")
      && (run[|run| - 1].Page? && run[|run| - 1].next != "" ==> |run| == 1000 - turn)
    decreases 1000 - turn
  {
    var answer := server(turn, cursor);
    if answer.Page? && answer.next != "" {
      if turn < 999 {
        CursorsStop(server, turn + 1, answer.next);
        var rest := CursorRun(server, turn + 1, answer.next);
        var run := [answer] + rest;
        forall i | 0 <= i < |run| - 1 ensures run[i].Page? && run[i].next != "" {
          if i > 0 { assert run[i] == rest[i - 1]; }
        }
        assert run[|run| - 1] == rest[|rest| - 1];
      } else {
        assert CursorRun(server, 1000, answer.next) == [];
      }
    }
  }
}
