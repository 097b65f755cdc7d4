/**
 Which cards of a transcript fit a pane: `transcriptWindow` of
 apps/tui/src/components/ConversationPane.tsx, which fills the pane from the newest card backwards
 and lets each card take as many body lines as it can.
 */
module TranscriptWindow {
  import opened Wrappers
  import opened Numbers
  import opened JsString

  datatype Turn = Turn(turn_id: string, kind: string, title: Option<string>, text: string)

  datatype Card = Card(turn: Turn, maxBodyLines: nat)

  datatype Window = Window(cards: seq<Card>, start: nat, end: nat, hiddenOlder: nat, hiddenNewer: nat)

  const OVERHEAD_ROWS := 4

  function TruncateText(value: string, max: nat): string {
    if |value| <= max then value
    else value[..max] + "\n\n[truncated " + DecimalText(|value| - max) + " chars]"
  }

  function TurnLineCount(turn: Turn): (n: nat)
    ensures n >= 1
  {
    |Split(TruncateText(turn.text, 2400), "\n")|
  }

  function DefaultMaxBodyLines(turn: Turn): nat {
    if turn.kind == "output" && turn.title == Some("Help") then 28 else 8
  }

  /** The rows of a card: a frame, the body, and a line that says more is hidden. */
  function EstimatedCardRows(turn: Turn, bodyLines: nat): nat {
    OVERHEAD_ROWS + bodyLines + if TurnLineCount(turn) > bodyLines then 1 else 0
  }

  function MaxUsefulBodyLines(turn: Turn): (n: nat)
    ensures n >= 1
  {
    Max(1, Min(DefaultMaxBodyLines(turn), TurnLineCount(turn)))
  }

  // ---------------------------------------------------------------- the layout, as functions

  /** The largest body of at most `bound` lines that fits the rows; one line when none fits. */
  function LargestBody(turn: Turn, rows: nat, bound: nat): (b: nat)
    requires bound >= 1
    ensures 1 <= b <= bound
    ensures b > 1 ==> EstimatedCardRows(turn, b) <= rows
  {
    if bound == 1 || EstimatedCardRows(turn, bound) <= rows then bound else LargestBody(turn, rows, bound - 1)
  }

  function Body(turn: Turn, rows: nat): (b: nat)
    ensures 1 <= b <= MaxUsefulBodyLines(turn)
  {
    LargestBody(turn, rows, MaxUsefulBodyLines(turn))
  }

  function CardFor(turn: Turn, rows: nat): Card {
    Card(turn, Body(turn, rows))
  }

  function Rows(card: Card): nat {
    EstimatedCardRows(card.turn, card.maxBodyLines)
  }

  /** The cards, oldest first, for the last of `turns` in `rows`; `shown` when a newer card is shown already. */
  function Fill(turns: seq<Turn>, rows: nat, shown: bool): (cards: seq<Card>)
    ensures |cards| <= |turns|
  {
    if turns == [] then []
    else
      var card := CardFor(turns[|turns| - 1], rows);
      if Rows(card) > rows && shown then []
      else if Rows(card) >= rows then [card]
      else Fill(turns[..|turns| - 1], rows - Rows(card), true) + [card]
  }

  function Budget(height: int): nat {
    Max(1, height - 2)
  }

  function End(turns: seq<Turn>, scrollOffset: int): (end: nat)
    ensures end <= |turns|
  {
    Max(0, |turns| - Max(0, scrollOffset))
  }

  function WindowOf(turns: seq<Turn>, height: int, scrollOffset: int): Window {
    var end := End(turns, scrollOffset);
    var cards := Fill(turns[..end], Budget(height), false);
    Window(cards, end - |cards|, end, end - |cards|, |turns| - end)
  }

  function Reverse<T>(s: seq<T>): (r: seq<T>)
    ensures |r| == |s| && forall i :: 0 <= i < |s| ==> r[i] == s[|s| - 1 - i]
  {
    seq(|s|, i requires 0 <= i < |s| => s[|s| - 1 - i])
  }

  /** No body longer than the rows allow can fit, so the search may start there. */
  lemma {:induction false} SearchMayStartLower(turn: Turn, rows: nat, bound: nat, from: nat)
    requires 1 <= from <= bound && (from == bound || from >= rows - OVERHEAD_ROWS)
    ensures LargestBody(turn, rows, bound) == LargestBody(turn, rows, from)
  {
    if from < bound {
      SearchMayStartLower(turn, rows, bound - 1, from);
    }
  }

  /** The inner loop: from what the rows allow at most, down to what fits. */
  method FitBody(turn: Turn, remainingRows: nat) returns (bodyLines: nat, estimatedRows: nat)
    ensures bodyLines == Body(turn, remainingRows)
    ensures estimatedRows == EstimatedCardRows(turn, bodyLines)
  {
    var maxUsefulBodyLines := Max(1, Min(DefaultMaxBodyLines(turn), TurnLineCount(turn)));
    bodyLines := Max(1, Min(maxUsefulBodyLines, remainingRows - OVERHEAD_ROWS));
    SearchMayStartLower(turn, remainingRows, maxUsefulBodyLines, bodyLines);
    estimatedRows := EstimatedCardRows(turn, bodyLines);
    while estimatedRows > remainingRows && bodyLines > 1
      invariant bodyLines >= 1 && estimatedRows == EstimatedCardRows(turn, bodyLines)
      invariant LargestBody(turn, remainingRows, bodyLines) == Body(turn, remainingRows)
    {
      bodyLines := bodyLines - 1;
      estimatedRows := EstimatedCardRows(turn, bodyLines);
    }
  }

  method TranscriptWindow(turns: seq<Turn>, height: int, scrollOffset: int) returns (w: Window)
    ensures w == WindowOf(turns, height, scrollOffset)
  {
    hide Body, EstimatedCardRows, Fill;
    var end := Max(0, |turns| - Max(0, scrollOffset));
    var cards: seq<Card> := [];
    var remainingRows: nat := Max(1, height - 2);
    var start := end;
    var index := end - 1;
    ghost var goal := Fill(turns[..end], Budget(height), false);
    ghost var left := goal;
    assert goal == left + Reverse(cards);
    FillNone(remainingRows, false);
    while index >= 0
      invariant -1 <= index < end && start == index + 1 == end - |cards|
      invariant left == Fill(turns[..index + 1], remainingRows, cards != [])
      invariant goal == left + Reverse(cards)
    {
      var turn := turns[index];
      var bodyLines, estimatedRows := FitBody(turn, remainingRows);
      FillStep(turns[..index], turn, remainingRows, cards != []);
      assert turns[..index + 1] == turns[..index] + [turn];
      if estimatedRows > remainingRows && |cards| > 0 {
        break;
      }
      left := if estimatedRows >= remainingRows then [] else Fill(turns[..index], remainingRows - estimatedRows, true);
      ReversePush(left, cards, Card(turn, bodyLines));
      cards := cards + [Card(turn, bodyLines)];
      remainingRows := Max(0, remainingRows - estimatedRows);
      start := index;
      if remainingRows <= 0 {
        break;
      }
      index := index - 1;
    }
    if index < 0 {
      assert turns[..0] == [];
      FillNone(remainingRows, cards != []);
    }
    assert left == [] && [] + Reverse(cards) == Reverse(cards);
    w := Window(Reverse(cards), start, end, start, |turns| - end);
  }

  lemma FillNone(rows: nat, shown: bool)
    ensures Fill([], rows, shown) == []
  {
  }

  lemma FillStep(older: seq<Turn>, turn: Turn, rows: nat, shown: bool)
    ensures var card := CardFor(turn, rows);
            Fill(older + [turn], rows, shown)
            == if Rows(card) > rows && shown then []
               else (if Rows(card) >= rows then [] else Fill(older, rows - Rows(card), true)) + [card]
  {
    assert (older + [turn])[..|older|] == older;
  }

  lemma ReversePush(older: seq<Card>, cards: seq<Card>, card: Card)
    ensures older + Reverse(cards + [card]) == (older + [card]) + Reverse(cards)
  {
  }

  // ---------------------------------------------------------------- what the layout promises

  /** Rows of the cards from position `i` on. */
  function RowsFrom(cards: seq<Card>, i: nat): nat
    requires i <= |cards|
    decreases |cards| - i
  {
    if i == |cards| then 0 else Rows(cards[i]) + RowsFrom(cards, i + 1)
  }

  /** No useful body is larger and fits; more than one line is only taken where it fits. */
  ghost predicate IsLargest(card: Card, rows: int) {
    && 1 <= card.maxBodyLines <= MaxUsefulBodyLines(card.turn)
    && (card.maxBodyLines > 1 ==> Rows(card) <= rows)
    && forall b :: card.maxBodyLines < b <= MaxUsefulBodyLines(card.turn) ==> EstimatedCardRows(card.turn, b) > rows
  }

  /**
   `cards` shows a run of turns up to the last, within the rows, each card as large as it can be, and no more
   turn fits.
   */
  ghost predicate GoodLayout(turns: seq<Turn>, rows: nat, shown: bool, cards: seq<Card>) {
    && |cards| <= |turns|
    && (forall i :: 0 <= i < |cards| ==> cards[i].turn == turns[|turns| - |cards| + i])
    && (RowsFrom(cards, 0) <= rows || (|cards| == 1 && !shown))
    && (forall i :: 0 <= i < |cards| ==> IsLargest(cards[i], rows - RowsFrom(cards, i + 1)))
    && (|cards| < |turns| ==>
          (shown || cards != []) && EstimatedCardRows(turns[|turns| - |cards| - 1], 1) > rows - RowsFrom(cards, 0))
  }

  lemma {:induction false} RowsFromSnoc(cards: seq<Card>, card: Card, i: nat)
    requires i <= |cards|
    ensures RowsFrom(cards + [card], i) == RowsFrom(cards, i) + Rows(card)
    decreases |cards| - i
  {
    hide EstimatedCardRows;
    if i < |cards| {
      RowsFromSnoc(cards, card, i + 1);
    } else {
      assert RowsFrom(cards + [card], i + 1) == 0;
    }
  }

  lemma RowsFromEnd(cards: seq<Card>)
    ensures RowsFrom(cards, |cards|) == 0
  {
  }

  lemma {:induction false} LargestBodyIsLargest(turn: Turn, rows: nat, bound: nat, b: nat)
    requires 1 <= bound && LargestBody(turn, rows, bound) < b <= bound
    ensures EstimatedCardRows(turn, b) > rows
  {
    if b < bound {
      LargestBodyIsLargest(turn, rows, bound - 1, b);
    }
  }

  lemma CardForIsLargest(turn: Turn, rows: nat)
    ensures IsLargest(CardFor(turn, rows), rows)
  {
    forall b | Body(turn, rows) < b <= MaxUsefulBodyLines(turn) ensures EstimatedCardRows(turn, b) > rows {
      LargestBodyIsLargest(turn, rows, MaxUsefulBodyLines(turn), b);
    }
  }

  /** When even the largest body that fits does not, one line does not fit either. */
  lemma TightCardIsLeast(turn: Turn, rows: nat)
    requires Rows(CardFor(turn, rows)) > rows
    ensures EstimatedCardRows(turn, 1) > rows
  {
  }

  lemma GoodLayoutGrows(turns: seq<Turn>, turn: Turn, rows: nat, shown: bool, older: seq<Card>, card: Card)
    requires card.turn == turn && IsLargest(card, rows) && Rows(card) <= rows
    requires GoodLayout(turns, rows - Rows(card), true, older)
    ensures GoodLayout(turns + [turn], rows, shown, older + [card])
  {
    hide IsLargest, EstimatedCardRows, RowsFrom;
    var cards, all := older + [card], turns + [turn];
    forall i | 0 <= i < |cards| ensures IsLargest(cards[i], rows - RowsFrom(cards, i + 1)) {
      if i < |older| {
        RowsFromSnoc(older, card, i + 1);
        assert IsLargest(older[i], rows - Rows(card) - RowsFrom(older, i + 1));
      } else {
        RowsFromEnd(cards);
      }
    }
    RowsFromSnoc(older, card, 0);
    assert forall i :: 0 <= i < |older| ==> cards[i].turn == all[|all| - |cards| + i];
  }

  lemma NoCardIsGood(older: seq<Turn>, turn: Turn, rows: nat)
    requires Rows(CardFor(turn, rows)) > rows
    ensures GoodLayout(older + [turn], rows, true, [])
  {
    hide IsLargest;
    TightCardIsLeast(turn, rows);
  }

  lemma OneCardIsGood(older: seq<Turn>, turn: Turn, rows: nat, shown: bool)
    requires Rows(CardFor(turn, rows)) >= rows && (shown ==> Rows(CardFor(turn, rows)) == rows)
    ensures GoodLayout(older + [turn], rows, shown, [CardFor(turn, rows)])
  {
    hide IsLargest, LargestBody, MaxUsefulBodyLines, TurnLineCount;
    var card := CardFor(turn, rows);
    CardForIsLargest(turn, rows);
    RowsFromEnd([card]);
    assert RowsFrom([card], 0) == Rows(card);
  }

  /** The greedy layout keeps every promise. */
  lemma {:induction false} FillIsGood(turns: seq<Turn>, rows: nat, shown: bool)
    ensures GoodLayout(turns, rows, shown, Fill(turns, rows, shown))
    decreases |turns|
  {
    hide GoodLayout, IsLargest, Rows, CardFor, Fill;
    if turns == [] {
      FillNone(rows, shown);
      NoTurnsAreGood(rows, shown);
    } else {
      var older, turn := turns[..|turns| - 1], turns[|turns| - 1];
      var card := CardFor(turn, rows);
      assert turns == older + [turn];
      FillStep(older, turn, rows, shown);
      CardForIsLargest(turn, rows);
      if Rows(card) > rows && shown {
        NoCardIsGood(older, turn, rows);
      } else if Rows(card) >= rows {
        OneCardIsGood(older, turn, rows, shown);
        assert [] + [card] == [card];
      } else {
        FillIsGood(older, rows - Rows(card), true);
        CardForTurn(turn, rows);
        GoodLayoutGrows(older, turn, rows, shown, Fill(older, rows - Rows(card), true), card);
      }
    }
  }

  lemma NoTurnsAreGood(rows: nat, shown: bool)
    ensures GoodLayout([], rows, shown, [])
  {
  }

  lemma CardForTurn(turn: Turn, rows: nat)
    ensures CardFor(turn, rows).turn == turn
  {
  }

  /** The promises leave no choice: any layout that keeps them is the greedy one. */
  lemma {:induction false} GoodLayoutIsUnique(turns: seq<Turn>, rows: nat, shown: bool, cards: seq<Card>)
    requires GoodLayout(turns, rows, shown, cards)
    ensures cards == Fill(turns, rows, shown)
    decreases |turns|
  {
    hide GoodLayout, IsLargest, Rows, CardFor, Fill;
    if turns == [] {
      FillNone(rows, shown);
      GoodLayoutIsShort(turns, rows, shown, cards);
    } else {
      var older, turn := turns[..|turns| - 1], turns[|turns| - 1];
      var card := CardFor(turn, rows);
      assert turns == older + [turn];
      FillStep(older, turn, rows, shown);
      if cards == [] {
        NothingFits(older, turn, rows, shown);
      } else {
        var rest := cards[..|cards| - 1];
        assert cards == rest + [cards[|cards| - 1]];
        LastCardIsCardFor(older, turn, rows, shown, rest, cards[|cards| - 1]);
        if Rows(card) >= rows {
          FullPaneEnds(older, turn, rows, shown, rest, card);
        } else {
          GoodLayoutShrinks(older, turn, rows, shown, rest, card);
          GoodLayoutIsUnique(older, rows - Rows(card), true, rest);
        }
      }
    }
  }

  lemma GoodLayoutIsShort(turns: seq<Turn>, rows: nat, shown: bool, cards: seq<Card>)
    requires GoodLayout(turns, rows, shown, cards)
    ensures |cards| <= |turns|
  {
  }

  lemma OneLineIsLeast(card: Card)
    requires card.maxBodyLines >= 1
    ensures EstimatedCardRows(card.turn, 1) <= Rows(card)
  {
  }

  lemma NothingFits(older: seq<Turn>, turn: Turn, rows: nat, shown: bool)
    requires GoodLayout(older + [turn], rows, shown, [])
    ensures shown && Rows(CardFor(turn, rows)) > rows
  {
    hide EstimatedCardRows, IsLargest;
    OneLineIsLeast(CardFor(turn, rows));
  }

  lemma LargestIsUnique(a: Card, b: Card, rows: int)
    requires IsLargest(a, rows) && IsLargest(b, rows) && a.turn == b.turn
    ensures a == b
  {
    hide EstimatedCardRows, MaxUsefulBodyLines;
  }

  lemma LastCardIsCardFor(older: seq<Turn>, turn: Turn, rows: nat, shown: bool, rest: seq<Card>, last: Card)
    requires GoodLayout(older + [turn], rows, shown, rest + [last])
    ensures last == CardFor(turn, rows) && (shown ==> Rows(last) <= rows)
  {
    hide EstimatedCardRows, IsLargest, RowsFrom;
    var cards := rest + [last];
    RowsFromEnd(cards);
    assert cards[|rest|] == last;
    assert IsLargest(last, rows - RowsFrom(cards, |rest| + 1));
    CardForIsLargest(turn, rows);
    LargestIsUnique(last, CardFor(turn, rows), rows);
    RowsFromSnoc(rest, last, 0);
  }

  lemma FullPaneEnds(older: seq<Turn>, turn: Turn, rows: nat, shown: bool, rest: seq<Card>, card: Card)
    requires GoodLayout(older + [turn], rows, shown, rest + [card]) && Rows(card) >= rows
    ensures rest == []
  {
    hide IsLargest, GoodLayout, TurnLineCount;
    RowsFromSnoc(rest, card, 0);
    assert rest != [] ==> RowsFrom(rest, 0) > 0;
    GoodLayoutFits(older + [turn], rows, shown, rest + [card]);
  }

  lemma GoodLayoutFits(turns: seq<Turn>, rows: nat, shown: bool, cards: seq<Card>)
    requires GoodLayout(turns, rows, shown, cards)
    ensures RowsFrom(cards, 0) <= rows || (|cards| == 1 && !shown)
  {
    hide IsLargest, RowsFrom, EstimatedCardRows;
  }

  lemma GoodLayoutShrinks(turns: seq<Turn>, turn: Turn, rows: nat, shown: bool, older: seq<Card>, card: Card)
    requires GoodLayout(turns + [turn], rows, shown, older + [card]) && Rows(card) <= rows
    ensures GoodLayout(turns, rows - Rows(card), true, older)
  {
    hide IsLargest, EstimatedCardRows, RowsFrom;
    var cards, all := older + [card], turns + [turn];
    RowsFromEnd(older);
    forall i | 0 <= i < |older| ensures IsLargest(older[i], rows - Rows(card) - RowsFrom(older, i + 1)) {
      RowsFromSnoc(older, card, i + 1);
      assert cards[i] == older[i];
    }
    RowsFromSnoc(older, card, 0);
    forall i | 0 <= i < |older| ensures older[i].turn == turns[|turns| - |older| + i] {
      assert cards[i] == older[i] && all[|all| - |cards| + i] == turns[|turns| - |older| + i];
    }
    assert |older| < |turns| ==> all[|all| - |cards| - 1] == turns[|turns| - |older| - 1];
  }

  // ---------------------------------------------------------------- a taller pane

  /** `large` ends with the turns of `small`, each with at least as many body lines. */
  ghost predicate Covers(large: seq<Card>, small: seq<Card>) {
    && |small| <= |large|
    && forall i :: 0 <= i < |small| ==>
         && small[i].turn == large[|large| - |small| + i].turn
         && small[i].maxBodyLines <= large[|large| - |small| + i].maxBodyLines
  }

  lemma {:induction false} BodyGrows(turn: Turn, rows: nat, taller: nat, bound: nat)
    requires rows <= taller && bound >= 1
    ensures LargestBody(turn, rows, bound) <= LargestBody(turn, taller, bound)
  {
    hide EstimatedCardRows;
    if bound > 1 {
      BodyGrows(turn, rows, taller, bound - 1);
    }
  }

  /** One more body line costs at most one more row, so a card that leaves a row free is as large as it gets. */
  lemma {:induction false} SlackMeansLargest(turn: Turn, rows: nat, bound: nat)
    requires bound >= 1 && EstimatedCardRows(turn, LargestBody(turn, rows, bound)) < rows
    ensures LargestBody(turn, rows, bound) == bound
  {
    hide TurnLineCount;
    if LargestBody(turn, rows, bound) != bound {
      SlackMeansLargest(turn, rows, bound - 1);
    }
  }

  lemma CardsGrow(turn: Turn, rows: nat, taller: nat)
    requires rows <= taller
    ensures CardFor(turn, rows).maxBodyLines <= CardFor(turn, taller).maxBodyLines
    ensures Rows(CardFor(turn, rows)) < rows ==> CardFor(turn, rows) == CardFor(turn, taller)
    ensures Rows(CardFor(turn, rows)) <= rows ==> Rows(CardFor(turn, taller)) <= taller
  {
    hide MaxUsefulBodyLines, LargestBody, TurnLineCount;
    var bound := MaxUsefulBodyLines(turn);
    BodyGrows(turn, rows, taller, bound);
    if Rows(CardFor(turn, rows)) < rows {
      SlackMeansLargest(turn, rows, bound);
    }
  }

  lemma CoversPush(large: seq<Card>, small: seq<Card>, over: Card, under: Card)
    requires Covers(large, small) && over.turn == under.turn && under.maxBodyLines <= over.maxBodyLines
    ensures Covers(large + [over], small + [under])
  {
    forall i | 0 <= i < |small| + 1
      ensures (small + [under])[i].turn == (large + [over])[|large| - |small| + i].turn
      ensures (small + [under])[i].maxBodyLines <= (large + [over])[|large| - |small| + i].maxBodyLines
    {
      if i < |small| {
        assert small[i].turn == large[|large| - |small| + i].turn;
      }
    }
  }

  lemma CoversNothing(large: seq<Card>)
    ensures Covers(large, [])
  {
  }

  /** With more rows every card shown before is shown again, no smaller. */
  lemma {:induction false} FillGrows(turns: seq<Turn>, rows: nat, taller: nat, shown: bool)
    requires rows <= taller
    ensures Covers(Fill(turns, taller, shown), Fill(turns, rows, shown))
    decreases |turns|
  {
    hide Covers, Rows, CardFor, Fill;
    if turns == [] {
      FillNone(rows, shown);
      FillNone(taller, shown);
      CoversNothing([]);
    } else {
      var older, turn := turns[..|turns| - 1], turns[|turns| - 1];
      var card, larger := CardFor(turn, rows), CardFor(turn, taller);
      assert turns == older + [turn];
      FillStep(older, turn, rows, shown);
      FillStep(older, turn, taller, shown);
      CardsGrow(turn, rows, taller);
      CardForTurn(turn, rows);
      CardForTurn(turn, taller);
      if Rows(card) > rows && shown {
        CoversNothing(Fill(turns, taller, shown));
      } else if Rows(card) >= rows {
        var rest := if Rows(larger) >= taller then [] else Fill(older, taller - Rows(larger), true);
        CoversNothing(rest);
        CoversPush(rest, [], larger, card);
      } else {
        FillGrows(older, rows - Rows(card), taller - Rows(card), true);
        CoversPush(Fill(older, taller - Rows(card), true), Fill(older, rows - Rows(card), true), larger, card);
      }
    }
  }

  /** A taller pane never drops a card that a shorter one showed, nor shortens its body. */
  lemma TallerPaneKeepsCards(turns: seq<Turn>, height: int, taller: int, scrollOffset: int)
    requires height <= taller
    ensures WindowOf(turns, taller, scrollOffset).end == WindowOf(turns, height, scrollOffset).end
    ensures WindowOf(turns, taller, scrollOffset).start <= WindowOf(turns, height, scrollOffset).start
    ensures Covers(WindowOf(turns, taller, scrollOffset).cards, WindowOf(turns, height, scrollOffset).cards)
  {
    hide Fill;
    FillGrows(turns[..End(turns, scrollOffset)], Budget(height), Budget(taller), false);
  }

  // ---------------------------------------------------------------- the window

  /** Nothing is lost: the hidden older turns, the cards and the hidden newer turns are all the turns, in order. */
  lemma WindowIsASlice(turns: seq<Turn>, height: int, scrollOffset: int)
    ensures var w := WindowOf(turns, height, scrollOffset);
            (0 <= w.start <= w.end <= |turns|
            && |w.cards| == w.end - w.start
            && (forall i :: 0 <= i < |w.cards| ==> w.cards[i].turn == turns[w.start..w.end][i])
            && w.hiddenOlder + |w.cards| + w.hiddenNewer == |turns|
            && w.hiddenNewer == Min(Max(0, scrollOffset), |turns|)
            && (w.cards == [] <==> Max(0, scrollOffset) >= |turns|))
  {
    hide Fill, GoodLayout, Budget;
    var end := End(turns, scrollOffset);
    var shown, cards := turns[..end], Fill(turns[..end], Budget(height), false);
    FillIsGood(shown, Budget(height), false);
    GoodLayoutShows(shown, Budget(height), cards);
    assert shown[end - |cards|..] == turns[end - |cards|..end];
  }

  lemma GoodLayoutShows(turns: seq<Turn>, rows: nat, cards: seq<Card>)
    requires GoodLayout(turns, rows, false, cards)
    ensures |cards| <= |turns| && (cards == [] <==> turns == [])
    ensures forall i :: 0 <= i < |cards| ==> cards[i].turn == turns[|turns| - |cards|..][i]
  {
    hide RowsFrom, IsLargest, EstimatedCardRows;
  }

  /**
   The window is the one that keeps these promises: the last turns before the scrolled-off ones, within
   the pane's rows unless a single card is shown, each with the largest body that fits below what is
   already shown, and so many that the next older turn would not fit even with one line.
   */
  lemma WindowIsTheGoodLayout(turns: seq<Turn>, height: int, scrollOffset: int, cards: seq<Card>)
    ensures GoodLayout(turns[..End(turns, scrollOffset)], Max(1, height - 2), false, cards)
            <==> cards == WindowOf(turns, height, scrollOffset).cards
  {
    hide Fill, GoodLayout;
    var shown := turns[..End(turns, scrollOffset)];
    FillIsGood(shown, Budget(height), false);
    if GoodLayout(shown, Budget(height), false, cards) {
      GoodLayoutIsUnique(shown, Budget(height), false, cards);
    }
  }
}
