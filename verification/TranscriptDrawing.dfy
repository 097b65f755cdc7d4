/**
 The lines that `TurnCard` and `ConversationPane` draw, and the window measured in them: the estimate of a
 card's rows is what the card draws, and the exact case in which the pane draws more lines than it has.
 */
module TranscriptDrawing {
  import opened Wrappers
  import opened Numbers
  import opened JsString
  import opened TranscriptWindow

  /** One row on the screen. */
  datatype Row =
    | Margin
    | BorderTop
    | Label(kind: string, title: Option<string>)
    | Line(text: string)
    | MoreLines(hidden: nat)
    | BorderBottom
    | Heading
    | Older(hidden: nat)
    | Newer(hidden: nat)
    | NoMessages

  /** The lines of a turn: its text, or the first 2400 characters and a note. */
  function Lines(turn: Turn): seq<string> {
    if |turn.text| <= 2400 then Split(turn.text, "\n")
    else
      Split(turn.text[..2400], "\n")
      + ["", "[truncated " + DecimalText(|turn.text| - 2400) + " chars]"]
  }

  function LineRows(lines: seq<string>): (rows: seq<Row>)
    ensures |rows| == |lines|
  {
    seq(|lines|, i requires 0 <= i < |lines| => Line(lines[i]))
  }

  /** `TurnCard`: a margin and a border, the label, the lines shown, and how many are hidden. */
  function Drawn(turn: Turn, maxBodyLines: nat): seq<Row> {
    var lines := Lines(turn);
    var shown := if |lines| <= maxBodyLines then lines else lines[..maxBodyLines];
    [Margin, BorderTop, Label(turn.kind, turn.title)] + LineRows(shown)
    + (if |lines| > |shown| then [MoreLines(|lines| - |shown|)] else []) + [BorderBottom]
  }

  function DrawnCards(cards: seq<Card>): seq<Row> {
    if cards == [] then [] else Drawn(cards[0].turn, cards[0].maxBodyLines) + DrawnCards(cards[1..])
  }

  /** `ConversationPane` without an expanded turn. */
  function DrawnPane(turns: seq<Turn>, w: Window): seq<Row> {
    [Heading]
    + (if w.hiddenOlder > 0 then [Older(w.hiddenOlder)] else [])
    + DrawnCards(w.cards)
    + (if w.hiddenNewer > 0 then [Newer(w.hiddenNewer)] else [])
    + (if turns == [] then [NoMessages] else [])
  }

  /** The most body lines a card may have. */
  function Cap(turn: Turn): nat {
    if turn.kind == "output" && turn.title == Some("Help") then 28 else 8
  }

  // ---------------------------------------------------------------- the lines of a turn

  lemma {:induction false} JoinSnoc(parts: seq<string>, last: string, sep: string)
    requires parts != []
    ensures Join(parts + [last], sep) == Join(parts, sep) + sep + last
  {
    var all := parts + [last];
    assert all[1..] == parts[1..] + [last];
    if |parts| > 1 {
      JoinSnoc(parts[1..], last, sep);
    } else {
      assert all[1..] == [last];
    }
  }

  lemma NoteIsOneLine(n: nat)
    ensures Lacks("[truncated " + DecimalText(n) + " chars]", '\n')
  {
    hide DecimalText;
    DecimalTextIsRead(n);
    var text := DecimalText(n);
    forall c | c in text ensures c != '\n' {
      assert IsDigit(c);
    }
  }

  /** The text that is split has the lines of the turn. */
  lemma LinesAreSplit(turn: Turn)
    ensures Split(TruncateText(turn.text, 2400), "\n") == Lines(turn)
  {
    hide Split, DecimalText, Join;
    if |turn.text| > 2400 {
      var head := turn.text[..2400];
      var note := "[truncated " + DecimalText(|turn.text| - 2400) + " chars]";
      var parts := Split(head, "\n");
      NoteIsOneLine(|turn.text| - 2400);
      SplitPartsLack(head, '\n');
      JoinUndoesSplit(head, "\n");
      JoinSnoc(parts, "", "\n");
      JoinSnoc(parts + [""], note, "\n");
      assert parts + [""] + [note] == Lines(turn);
      assert TruncateText(turn.text, 2400) == Join(Lines(turn), "\n");
      SplitUndoesJoin(Lines(turn), '\n');
    }
  }

  // ---------------------------------------------------------------- estimates and rows

  /** The estimate is the number of rows drawn exactly when no more body lines are given than there are. */
  lemma EstimateIsDrawnIff(turn: Turn, bodyLines: nat)
    ensures EstimatedCardRows(turn, bodyLines) == |Drawn(turn, bodyLines)| <==> bodyLines <= |Lines(turn)|
  {
    hide Lines;
    LinesAreSplit(turn);
  }

  lemma UsefulIs(turn: Turn)
    ensures MaxUsefulBodyLines(turn) == Min(Cap(turn), |Lines(turn)|) && |Lines(turn)| >= 1
  {
    LinesAreSplit(turn);
    assert TurnLineCount(turn) == |Lines(turn)|;
    hide Lines, TurnLineCount;
  }

  predicate IsUseful(turn: Turn, bodyLines: nat) {
    1 <= bodyLines <= Cap(turn) && bodyLines <= |Lines(turn)|
  }

  lemma {:induction false} RowsAreDrawn(cards: seq<Card>, i: nat)
    requires i <= |cards| && forall k :: 0 <= k < |cards| ==> IsUseful(cards[k].turn, cards[k].maxBodyLines)
    ensures RowsFrom(cards, i) == |DrawnCards(cards[i..])|
    decreases |cards| - i
  {
    hide Drawn, Lines, EstimatedCardRows;
    if i < |cards| {
      RowsAreDrawn(cards, i + 1);
      EstimateIsDrawnIff(cards[i].turn, cards[i].maxBodyLines);
      assert cards[i..][1..] == cards[i + 1..];
    }
  }

  /** The promises of a layout on drawn rows: useful bodies, within the rows, none larger fits, no more turn fits. */
  ghost predicate FitsDrawn(turns: seq<Turn>, rows: nat, cards: seq<Card>) {
    && |cards| <= |turns|
    && (forall i :: 0 <= i < |cards| ==> cards[i].turn == turns[|turns| - |cards| + i])
    && (forall i :: 0 <= i < |cards| ==> IsUseful(cards[i].turn, cards[i].maxBodyLines))
    && (|DrawnCards(cards)| <= rows || (|cards| == 1 && cards[0].maxBodyLines == 1))
    && (forall i, b: nat :: 0 <= i < |cards| && cards[i].maxBodyLines < b && IsUseful(cards[i].turn, b) ==>
          |Drawn(cards[i].turn, b)| > rows - |DrawnCards(cards[i + 1..])|)
    && (|cards| < |turns| ==>
          cards != [] && |Drawn(turns[|turns| - |cards| - 1], 1)| > rows - |DrawnCards(cards)|)
  }

  lemma LayoutIsUseful(turns: seq<Turn>, rows: nat, cards: seq<Card>)
    requires GoodLayout(turns, rows, false, cards)
    ensures forall i :: 0 <= i < |cards| ==> IsUseful(cards[i].turn, cards[i].maxBodyLines)
  {
    hide IsLargest, IsUseful, EstimatedCardRows, RowsFrom;
    forall i | 0 <= i < |cards| ensures IsUseful(cards[i].turn, cards[i].maxBodyLines) {
      LargestIsUseful(cards[i], rows - RowsFrom(cards, i + 1));
    }
  }

  lemma LayoutIsWithin(turns: seq<Turn>, rows: nat, cards: seq<Card>)
    requires GoodLayout(turns, rows, false, cards)
    ensures |DrawnCards(cards)| <= rows || (|cards| == 1 && cards[0].maxBodyLines == 1)
  {
    hide IsLargest, IsUseful, EstimatedCardRows, RowsFrom, DrawnCards;
    LayoutIsUseful(turns, rows, cards);
    RowsAreDrawn(cards, 0);
    assert cards[0..] == cards;
    if |cards| == 1 {
      assert cards == [cards[0]] && IsLargest(cards[0], rows - RowsFrom(cards, 1));
      LargestIsTight(cards[0], rows);
    }
  }

  lemma LayoutIsTight(turns: seq<Turn>, rows: nat, cards: seq<Card>, i: nat, b: nat)
    requires GoodLayout(turns, rows, false, cards)
    requires i < |cards| && cards[i].maxBodyLines < b && IsUseful(cards[i].turn, b)
    ensures |Drawn(cards[i].turn, b)| > rows - |DrawnCards(cards[i + 1..])|
  {
    LayoutIsUseful(turns, rows, cards);
    hide IsLargest, IsUseful, EstimatedCardRows, RowsFrom, DrawnCards, Drawn;
    RowsAreDrawn(cards, i + 1);
    NoLargerIsUseful(cards[i], rows - RowsFrom(cards, i + 1), b);
  }

  lemma LayoutIsFull(turns: seq<Turn>, rows: nat, cards: seq<Card>)
    requires GoodLayout(turns, rows, false, cards) && |cards| < |turns|
    ensures cards != [] && |Drawn(turns[|turns| - |cards| - 1], 1)| > rows - |DrawnCards(cards)|
  {
    LayoutIsUseful(turns, rows, cards);
    hide IsLargest, IsUseful, EstimatedCardRows, RowsFrom, DrawnCards, Drawn;
    RowsAreDrawn(cards, 0);
    assert cards[0..] == cards;
    UsefulIs(turns[|turns| - |cards| - 1]);
    EstimateIsDrawnIff(turns[|turns| - |cards| - 1], 1);
  }

  lemma LayoutFitsDrawn(turns: seq<Turn>, rows: nat, cards: seq<Card>)
    requires GoodLayout(turns, rows, false, cards)
    ensures FitsDrawn(turns, rows, cards)
  {
    GoodLayoutShows(turns, rows, cards);
    LayoutIsUseful(turns, rows, cards);
    LayoutIsWithin(turns, rows, cards);
    hide GoodLayout, IsUseful, Drawn, DrawnCards;
    forall i, b: nat | 0 <= i < |cards| && cards[i].maxBodyLines < b && IsUseful(cards[i].turn, b)
      ensures |Drawn(cards[i].turn, b)| > rows - |DrawnCards(cards[i + 1..])|
    {
      LayoutIsTight(turns, rows, cards, i, b);
    }
    if |cards| < |turns| {
      LayoutIsFull(turns, rows, cards);
    }
  }

  /**
   The window in drawn rows: each card shows between one line and 8 (28 for help), never more than there are; the
   cards take at most the pane's height less two, unless one card with one line is more; no card could show
   another line, and the next older turn would not fit.
   */
  lemma WindowFitsDrawn(turns: seq<Turn>, height: int, scrollOffset: int)
    ensures var end := Max(0, |turns| - Max(0, scrollOffset));
            FitsDrawn(turns[..end], Max(1, height - 2), WindowOf(turns, height, scrollOffset).cards)
  {
    hide GoodLayout, FitsDrawn, WindowOf;
    var cards := WindowOf(turns, height, scrollOffset).cards;
    WindowIsTheGoodLayout(turns, height, scrollOffset, cards);
    LayoutFitsDrawn(turns[..End(turns, scrollOffset)], Max(1, height - 2), cards);
  }

  lemma LargestIsTight(card: Card, rows: nat)
    requires IsLargest(card, rows - RowsFrom([card], 1))
    ensures RowsFrom([card], 0) <= rows || card.maxBodyLines == 1
  {
    hide EstimatedCardRows;
    assert RowsFrom([card], 1) == 0;
  }

  lemma LargestIsUseful(card: Card, rows: int)
    requires IsLargest(card, rows)
    ensures IsUseful(card.turn, card.maxBodyLines)
  {
    hide Lines, EstimatedCardRows;
    UsefulIs(card.turn);
  }

  lemma NoLargerIsUseful(card: Card, rows: int, b: nat)
    requires IsLargest(card, rows) && card.maxBodyLines < b && IsUseful(card.turn, b)
    ensures |Drawn(card.turn, b)| > rows
  {
    hide Lines, EstimatedCardRows, Drawn;
    UsefulIs(card.turn);
    EstimateIsDrawnIff(card.turn, b);
  }

  // ---------------------------------------------------------------- the pane

  /**
   The pane draws more lines than it has exactly when cards fill all rows but two and both hints, for older and
   for newer cards, are drawn as well; one line then does not fit.
   */
  lemma PaneOverflowsIff(turns: seq<Turn>, height: int, scrollOffset: int)
    requires var w := WindowOf(turns, height, scrollOffset); height >= 3 && |DrawnCards(w.cards)| <= height - 2
    ensures var w := WindowOf(turns, height, scrollOffset);
            && |DrawnPane(turns, w)| <= height + 1
            && (|DrawnPane(turns, w)| > height <==>
                  w.hiddenOlder > 0 && w.hiddenNewer > 0 && |DrawnCards(w.cards)| == height - 2)
  {
    hide Fill, DrawnCards;
    WindowIsASlice(turns, height, scrollOffset);
    if turns == [] {
      var w := WindowOf(turns, height, scrollOffset);
      assert w.cards == [];
      NothingIsDrawn();
    }
  }

  lemma NothingIsDrawn()
    ensures DrawnCards([]) == []
  {
  }

  /** It happens: three turns of one line in a pane of seven, scrolled by one. */
  lemma PaneCanOverflow(a: Turn, b: Turn, c: Turn)
    requires |Lines(a)| == |Lines(b)| == |Lines(c)| == 1
    ensures |DrawnPane([a, b, c], WindowOf([a, b, c], 7, 1))| == 8
  {
    hide Lines, EstimatedCardRows;
    var w := WindowOf([a, b, c], 7, 1);
    assert [a, b, c][..2] == [a, b] && [a, b][..1] == [a];
    UsefulIs(b);
    EstimateIsDrawnIff(b, 1);
    assert |Drawn(b, 1)| == 5;
    assert CardFor(b, 5) == Card(b, 1);
    assert Fill([a, b], 5, false) == [Card(b, 1)];
    assert DrawnCards([Card(b, 1)]) == Drawn(b, 1) + DrawnCards([]);
  }
}
