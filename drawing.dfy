/** Placing piece glyphs on the client's board from a FEN (`_draw_pieces`).
    A glyph is recorded by the display row and column it is drawn at;
    pixel coordinates and fonts are not modelled. */
module Drawing {
  import opened Strings

  /** The letters `UNICODE_PIECES` has a symbol for. */
  predicate IsPiece(c: char)
  {
    c == 'K' || c == 'Q' || c == 'R' || c == 'B' || c == 'N' || c == 'P' ||
    c == 'k' || c == 'q' || c == 'r' || c == 'b' || c == 'n' || c == 'p'
  }

  datatype Glyph = Glyph(piece: char, row: int, col: int)

  /** How far one character of a row moves the column: a digit skips that
      many empty squares, any other character takes one square. */
  function Advance(c: char): (n: nat)
    ensures IsDigit(c) ==> n == c as int - '0' as int
    ensures !IsDigit(c) ==> n == 1
  {
    if IsDigit(c) then c as int - '0' as int else 1
  }

  /** The number of squares a row text spans. */
  function Width(text: string): nat
  {
    if |text| == 0 then 0 else Width(text[..|text| - 1]) + Advance(text[|text| - 1])
  }

  /** The column a glyph is drawn at: black's board is mirrored. */
  function Column(isBlack: bool, col: int): int
  {
    if isBlack then 7 - col else col
  }

  /** The glyphs of one row, drawn at display row `row`, with the walk
      starting at column `start`. */
  function RowGlyphs(text: string, row: int, start: int, isBlack: bool): seq<Glyph>
  {
    if |text| == 0 then []
    else
      var c := text[|text| - 1];
      var earlier := RowGlyphs(text[..|text| - 1], row, start, isBlack);
      var col := start + Width(text[..|text| - 1]);
      earlier + if IsPiece(c) then [Glyph(c, row, Column(isBlack, col))] else []
  }

  /** The glyphs of all rows, each at its index in display order. */
  function BoardGlyphs(rows: seq<string>, isBlack: bool): seq<Glyph>
  {
    if |rows| == 0 then []
    else
      var n := |rows| - 1;
      BoardGlyphs(rows[..n], isBlack) + RowGlyphs(rows[n], n, 0, isBlack)
  }

  function Reversed<T>(s: seq<T>): (r: seq<T>)
    ensures |r| == |s|
    ensures forall k :: 0 <= k < |s| ==> r[k] == s[|s| - 1 - k]
  {
    if |s| == 0 then [] else [s[|s| - 1]] + Reversed(s[..|s| - 1])
  }

  /** Black sees the last FEN row at the top. */
  function DisplayRows(rows: seq<string>, isBlack: bool): (shown: seq<string>)
    ensures multiset(shown) == multiset(rows)
  {
    if isBlack then
      var r := Reversed(rows);
      ReversedCount(rows);
      r
    else rows
  }

  lemma {:induction false} ReversedCount<T>(s: seq<T>)
    ensures multiset(Reversed(s)) == multiset(s)
  {
    if |s| > 0 {
      ReversedCount(s[..|s| - 1]);
      assert s == s[..|s| - 1] + [s[|s| - 1]];
    }
  }

  /** The rows `_draw_pieces` walks, as written: the whole FEN is split at
      `/` whenever it holds one, so the side to move, castling rights and
      counters stay glued to the last row. */
  function DrawnRows(fen: string): (rows: seq<string>)
    ensures '/' !in fen ==> rows == Split(FirstField(fen, ' '), '/')
  {
    if '/' in fen then Split(fen, '/') else Split(FirstField(fen, ' '), '/')
  }

  /** The rows of the piece placement field alone. */
  function PlacementRows(fen: string): (rows: seq<string>)
    ensures forall k :: 0 <= k < |rows| ==> ' ' !in rows[k] && '/' !in rows[k]
  {
    var placement := FirstField(fen, ' ');
    var parts := Split(placement, '/');
    assert forall k :: 0 <= k < |parts| ==> ' ' !in parts[k] by {
      JoinSplit(placement, '/');
      forall k | 0 <= k < |parts| ensures ' ' !in parts[k] {
        PartIn(parts, k, '/');
      }
    }
    parts
  }

  /** Every character of a part occurs in the joined text. */
  lemma {:induction false} PartIn(parts: seq<string>, k: nat, c: char)
    requires k < |parts|
    ensures forall x :: x in parts[k] ==> x in Join(parts, c)
  {
    if k > 0 {
      PartIn(parts[1..], k - 1, c);
      assert parts == [parts[0]] + parts[1..];
      JoinCons(parts[0], parts[1..], c);
    } else if |parts| > 1 {
      assert parts == [parts[0]] + parts[1..];
      JoinCons(parts[0], parts[1..], c);
    }
  }

  /** The glyphs `_draw_pieces` draws, as written. */
  function Drawn(fen: string, isBlack: bool): seq<Glyph>
  {
    BoardGlyphs(DisplayRows(DrawnRows(fen), isBlack), isBlack)
  }

  /** The glyphs drawn from the placement field only. */
  function Placed(fen: string, isBlack: bool): seq<Glyph>
  {
    BoardGlyphs(DisplayRows(PlacementRows(fen), isBlack), isBlack)
  }

  /** `_draw_pieces`: the outer loop over the display rows, as written. */
  method DrawPieces(fen: string, isBlack: bool) returns (glyphs: seq<Glyph>)
    ensures glyphs == Drawn(fen, isBlack)
  {
    var rows := if '/' in fen then Split(fen, '/') else Split(FirstField(fen, ' '), '/');
    var boardRows := if isBlack then Reversed(rows) else rows;
    glyphs := [];
    var i := 0;
    while i < |boardRows|
      invariant 0 <= i <= |boardRows|
      invariant glyphs == BoardGlyphs(boardRows[..i], isBlack)
    {
      var rowGlyphs := DrawRow(boardRows[i], i, isBlack);
      BoardStep(boardRows, i, isBlack);
      glyphs := glyphs + rowGlyphs;
      i := i + 1;
    }
    assert boardRows[..i] == boardRows;
    assert boardRows == DisplayRows(DrawnRows(fen), isBlack);
  }

  /** The inner loop over the characters of one row. */
  method DrawRow(text: string, row: int, isBlack: bool) returns (gs: seq<Glyph>)
    ensures gs == RowGlyphs(text, row, 0, isBlack)
  {
    gs := [];
    var col := 0;
    var i := 0;
    while i < |text|
      invariant 0 <= i <= |text|
      invariant col == Width(text[..i])
      invariant gs == RowGlyphs(text[..i], row, 0, isBlack)
    {
      var c := text[i];
      RowStep(text, i, row, isBlack);
      if IsDigit(c) {
        col := col + (c as int - '0' as int);
      } else {
        if IsPiece(c) {
          gs := gs + [Glyph(c, row, if isBlack then 7 - col else col)];
        }
        col := col + 1;
      }
      i := i + 1;
    }
    assert text[..i] == text;
  }

  /** One more character of a row. */
  lemma RowStep(text: string, i: nat, row: int, isBlack: bool)
    requires i < |text|
    ensures var c, w := text[i], Width(text[..i]);
      Width(text[..i + 1]) == w + Advance(c) &&
      RowGlyphs(text[..i + 1], row, 0, isBlack) ==
        RowGlyphs(text[..i], row, 0, isBlack) + if IsPiece(c) then [Glyph(c, row, Column(isBlack, w))] else []
  {
    assert text[..i + 1][..i] == text[..i];
  }

  /** One more row of the board. */
  lemma BoardStep(rows: seq<string>, i: nat, isBlack: bool)
    requires i < |rows|
    ensures BoardGlyphs(rows[..i + 1], isBlack) == BoardGlyphs(rows[..i], isBlack) + RowGlyphs(rows[i], i, 0, isBlack)
  {
    assert rows[..i + 1][..i] == rows[..i];
  }

  // ---- the placement field, rows of eight squares ----

  /** A placement with eight rows, each spanning eight squares. */
  predicate WellFormed(rows: seq<string>)
  {
    |rows| == 8 && forall k :: 0 <= k < |rows| ==> Width(rows[k]) == 8
  }

  /** A row's glyphs are pieces, on that row, within the squares the row
      text spans. */
  lemma {:induction false} RowBounds(text: string, row: int, start: int, isBlack: bool)
    ensures forall g :: g in RowGlyphs(text, row, start, isBlack) ==>
      g.row == row && IsPiece(g.piece) && start <= Column(isBlack, g.col) < start + Width(text)
  {
    if |text| > 0 {
      RowBounds(text[..|text| - 1], row, start, isBlack);
    }
  }

  /** The board's glyphs are pieces on the rows given. */
  lemma {:induction false} BoardBounds(rows: seq<string>, isBlack: bool)
    ensures forall g :: g in BoardGlyphs(rows, isBlack) ==> IsPiece(g.piece) && 0 <= g.row < |rows|
  {
    if |rows| > 0 {
      var n := |rows| - 1;
      BoardBounds(rows[..n], isBlack);
      RowBounds(rows[n], n, 0, isBlack);
    }
  }

  lemma {:induction false} GlyphsWithinWidth(rows: seq<string>, isBlack: bool)
    requires forall k :: 0 <= k < |rows| ==> Width(rows[k]) == 8
    ensures forall g :: g in BoardGlyphs(rows, isBlack) ==> 0 <= g.col < 8
  {
    if |rows| > 0 {
      var n := |rows| - 1;
      GlyphsWithinWidth(rows[..n], isBlack);
      RowBounds(rows[n], n, 0, isBlack);
      assert Width(rows[n]) == 8;
    }
  }

  /** From a well-formed placement every glyph lands on the board, for
      either colour. */
  lemma PlacedOnBoard(fen: string, isBlack: bool)
    requires WellFormed(PlacementRows(fen))
    ensures forall g :: g in Placed(fen, isBlack) ==> IsPiece(g.piece) && 0 <= g.row < 8 && 0 <= g.col < 8
  {
    var rows := PlacementRows(fen);
    var shown := DisplayRows(rows, isBlack);
    forall k | 0 <= k < |shown| ensures Width(shown[k]) == 8 {
      assert shown[k] in multiset(rows);
    }
    GlyphsWithinWidth(shown, isBlack);
    BoardBounds(shown, isBlack);
  }

  /** The fields after the placement do not change what is drawn from it,
      and on a bare placement the code as written draws the same. */
  lemma PlacementAlone(placement: string, fields: string, isBlack: bool)
    requires ' ' !in placement
    ensures Placed(placement + " " + fields, isBlack) == Placed(placement, isBlack)
    ensures Drawn(placement, isBlack) == Placed(placement, isBlack)
  {
    var fen := placement + " " + fields;
    assert fen[|placement|] == ' ';
    assert FirstField(fen, ' ') == placement;
  }

  // ---- the full FEN, as the server sends it ----

  /** The tail appended to the last of the parts. */
  function Glue(parts: seq<string>, t: string): (r: seq<string>)
    requires |parts| >= 1
    ensures |r| == |parts| && r[|r| - 1] == parts[|parts| - 1] + t
    ensures forall k :: 0 <= k < |parts| - 1 ==> r[k] == parts[k]
  {
    parts[..|parts| - 1] + [parts[|parts| - 1] + t]
  }

  lemma GlueCons(x: string, later: seq<string>, t: string)
    requires |later| >= 1
    ensures Glue([x] + later, t) == [x] + Glue(later, t)
  {
    var m := |later| - 1;
    assert ([x] + later)[..m + 1] == [x] + later[..m];
  }

  /** Splitting text followed by a tail without the separator: the tail
      stays glued to the last part. */
  lemma {:induction false} SplitAppend(s: string, t: string, c: char)
    requires c !in t
    ensures Split(s + t, c) == Glue(Split(s, c), t)
    decreases |s|
  {
    var st := s + t;
    if c in s {
      var i := Find(s, c);
      var rest := s[i + 1..];
      assert st[i] == c && st[..i] == s[..i];
      assert Find(st, c) == i;
      assert st[i + 1..] == rest + t;
      SplitStep(s, c);
      SplitStep(st, c);
      SplitAppend(rest, t, c);
      GlueCons(s[..i], Split(rest, c), t);
    } else {
      assert c !in st;
      assert Split(st, c) == [st];
    }
  }

  /** The walk over two pieces of text: the second starts where the first
      ends. */
  lemma {:induction false} RowAppend(a: string, b: string, row: int, start: int, isBlack: bool)
    ensures Width(a + b) == Width(a) + Width(b)
    ensures RowGlyphs(a + b, row, start, isBlack) ==
      RowGlyphs(a, row, start, isBlack) + RowGlyphs(b, row, start + Width(a), isBlack)
    decreases |b|
  {
    if |b| == 0 {
      assert a + b == a;
    } else {
      var n := |b| - 1;
      RowAppend(a, b[..n], row, start, isBlack);
      assert (a + b)[..|a + b| - 1] == a + b[..n];
    }
  }

  /** A row's glyphs are among the board's. */
  lemma {:induction false} RowInBoard(rows: seq<string>, k: nat, isBlack: bool)
    requires k < |rows|
    ensures forall g :: g in RowGlyphs(rows[k], k, 0, isBlack) ==> g in BoardGlyphs(rows, isBlack)
  {
    var n := |rows| - 1;
    if k < n {
      RowInBoard(rows[..n], k, isBlack);
    }
  }

  /** The fields that follow the placement in a FEN, starting with the
      side to move and the castling rights, e.g. ` w KQkq - 0 1`. */
  function Fields(side: char, castling: char, rest: string): string
  {
    [' ', side, ' ', castling] + rest
  }

  /** The walk over the fields, entered at column 8 where a well-formed
      last row ends: the side to move takes column 9 and the first
      castling letter column 11. */
  lemma FieldsGlyphs(side: char, castling: char, rest: string, row: int, isBlack: bool)
    requires side == 'w' || side == 'b'
    requires IsPiece(castling) && '/' !in rest
    ensures var fields := Fields(side, castling, rest);
      '/' !in fields && Width(fields) >= 4 &&
      Glyph(castling, row, Column(isBlack, 11)) in RowGlyphs(fields, row, 8, isBlack) &&
      (side == 'b' ==> Glyph('b', row, Column(isBlack, 9)) in RowGlyphs(fields, row, 8, isBlack))
  {
    var fields := Fields(side, castling, rest);
    forall k | 0 <= k < |fields| ensures fields[k] != '/' {
      if k >= 4 {
        assert fields[k] == rest[k - 4];
      }
    }
    var space, pair, gap, tail := [' '], [' ', side], [' ', side, ' '], [castling] + rest;
    assert fields == gap + tail;
    assert pair[..1] == space && gap[..2] == pair && space[..0] == [];
    assert Width(space) == 1;
    assert Width(pair) == 2;
    assert Width(gap) == 3;
    RowAppend(gap, tail, row, 8, isBlack);
    RowAppend([castling], rest, row, 11, isBlack);
    assert [castling][..0] == [];
    assert RowGlyphs([castling], row, 11, isBlack) == [Glyph(castling, row, Column(isBlack, 11))];
    if side == 'b' {
      assert RowGlyphs(space, row, 8, isBlack) == [];
      assert RowGlyphs(pair, row, 8, isBlack) == [Glyph('b', row, Column(isBlack, 9))];
      assert RowGlyphs(gap, row, 8, isBlack) == RowGlyphs(pair, row, 8, isBlack);
    }
  }

  /** As written, the fields after the placement are glued to its last
      row. */
  lemma LastRowGlued(placement: string, fields: string)
    requires '/' in placement && |Split(placement, '/')| == 8 && '/' !in fields
    ensures var rows := DrawnRows(placement + fields);
      |rows| == 8 && rows[7] == Split(placement, '/')[7] + fields
  {
    SplitAppend(placement, fields, '/');
  }

  /** A glyph of the glued fields, past a last row of eight squares. */
  lemma GluedGlyph(placement: string, fields: string, g: Glyph, isBlack: bool)
    requires '/' in placement && WellFormed(Split(placement, '/')) && '/' !in fields
    requires g in RowGlyphs(fields, if isBlack then 0 else 7, 8, isBlack)
    ensures g in Drawn(placement + fields, isBlack)
  {
    var fen := placement + fields;
    LastRowGlued(placement, fields);
    var rows := DrawnRows(fen);
    var parts := Split(placement, '/');
    var r := if isBlack then 0 else 7;
    RowAppend(parts[7], fields, r, 0, isBlack);
    assert g in RowGlyphs(rows[7], r, 0, isBlack);
    if isBlack {
      var flipped := Reversed(rows);
      assert flipped[0] == rows[7];
      RowInBoard(flipped, 0, true);
    } else {
      RowInBoard(rows, 7, false);
    }
  }

  /** As written, a full FEN puts the castling rights on the board's last
      row: for white the first castling letter (`K` in the starting
      position) is drawn at column 11 of the bottom row, for black at
      column -4 of the top row, and when black is to move its `b` is
      drawn as a bishop at column 9. The rows are then no longer eight
      squares wide. */
  lemma FieldsDrawnOffBoard(placement: string, side: char, castling: char, rest: string)
    requires '/' in placement && WellFormed(Split(placement, '/'))
    requires side == 'w' || side == 'b'
    requires IsPiece(castling) && '/' !in rest
    ensures var fen := placement + Fields(side, castling, rest);
      Glyph(castling, 7, 11) in Drawn(fen, false) &&
      Glyph(castling, 0, -4) in Drawn(fen, true) &&
      (side == 'b' ==> Glyph('b', 7, 9) in Drawn(fen, false)) &&
      !WellFormed(DrawnRows(fen))
  {
    var fields := Fields(side, castling, rest);
    FieldsGlyphs(side, castling, rest, 7, false);
    FieldsGlyphs(side, castling, rest, 0, true);
    GluedGlyph(placement, fields, Glyph(castling, 7, 11), false);
    GluedGlyph(placement, fields, Glyph(castling, 0, -4), true);
    if side == 'b' {
      GluedGlyph(placement, fields, Glyph('b', 7, 9), false);
    }
    LastRowGlued(placement, fields);
    RowAppend(Split(placement, '/')[7], fields, 7, 0, false);
  }
}
