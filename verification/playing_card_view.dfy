/** The integer logic of the card view: the rank's corner label and the table
    of pips per row, with the number of pips the drawing loop emits. */
module PlayingCardView {
  import Decimal
  import PlayingCard

  /** `rankString`: "A", the decimal number for 2 to 10, "J", "Q", "K", and "?" otherwise. */
  function RankString(rank: int): (s: string)
    ensures s == "?" <==> !(1 <= rank <= 13)
    ensures 2 <= rank <= 10 ==> Decimal.IsDecimal(s) && Decimal.ParseInt(s) == rank
  {
    Decimal.IntToDecimalRoundTrip(rank);
    if rank == 1 then "A"
    else if 2 <= rank <= 10 then Decimal.IntToDecimal(rank)
    else if rank == 11 then "J"
    else if rank == 12 then "Q"
    else if rank == 13 then "K"
    else "?"
  }

  /** The view shows the label of each canonical rank from the order key the controller hands it. */
  lemma RankStringMatchesDescription(i: nat)
    requires i < 13
    ensures RankString(PlayingCard.Order(PlayingCard.AllRanks()[i])) == PlayingCard.Description(PlayingCard.AllRanks()[i])
  {
  }

  /** How many pips each row shows, indexed by rank; face ranks have no entry. */
  const PipsPerRowForRank: seq<seq<int>> :=
    [[0], [1], [1, 1], [1, 1, 1], [2, 2], [2, 1, 2], [2, 2, 2], [2, 1, 2, 2], [2, 2, 2, 2], [2, 2, 1, 2, 2], [2, 2, 2, 2, 2]]

  /** Pip strings drawn for one row entry: one for 1, one in each half for 2, none otherwise. */
  function PipsForEntry(count: int): nat {
    if count == 1 then 1 else if count == 2 then 2 else 0
  }

  /** Pip strings drawn for a whole row. */
  function PipsInRow(row: seq<int>): nat
    decreases |row|
  {
    if |row| == 0 then 0 else PipsInRow(row[..|row| - 1]) + PipsForEntry(row[|row| - 1])
  }

  lemma PipsInRowStep(row: seq<int>, k: nat)
    requires k < |row|
    ensures PipsInRow(row[..k + 1]) == PipsInRow(row[..k]) + PipsForEntry(row[k])
  {
    assert row[..k + 1][..k] == row[..k];
  }

  /** Each rank's row entries produce exactly as many pips as the rank. */
  lemma TablePipSums(rank: nat)
    requires rank < |PipsPerRowForRank|
    ensures PipsInRow(PipsPerRowForRank[rank]) == rank
  {
    var row := PipsPerRowForRank[rank];
    assert row[..0] == [];
    PipsInRowStep(row, 0);
    if |row| > 1 { PipsInRowStep(row, 1); }
    if |row| > 2 { PipsInRowStep(row, 2); }
    if |row| > 3 { PipsInRowStep(row, 3); }
    if |row| > 4 { PipsInRowStep(row, 4); }
    assert row[..|row|] == row;
  }

  /** `drawPips`: the number of pip strings drawn and of rows stepped through. */
  method DrawPips(rank: int) returns (pips: nat, rows: nat)
    ensures 0 <= rank < |PipsPerRowForRank| ==> pips == rank && rows == |PipsPerRowForRank[rank]|
    ensures !(0 <= rank < |PipsPerRowForRank|) ==> pips == 0 && rows == 0
  {
    pips, rows := 0, 0;
    if 0 <= rank < |PipsPerRowForRank| {
      var pipsPerRow := PipsPerRowForRank[rank];
      while rows < |pipsPerRow|
        invariant rows <= |pipsPerRow|
        invariant pips == PipsInRow(pipsPerRow[..rows])
      {
        var pipCount := pipsPerRow[rows];
        if pipCount == 1 {
          pips := pips + 1;
        } else if pipCount == 2 {
          pips := pips + 2;
        }
        assert pipsPerRow[..rows + 1][..rows] == pipsPerRow[..rows];
        rows := rows + 1;
      }
      assert pipsPerRow[..rows] == pipsPerRow;
      TablePipSums(rank);
    }
  }

  function Max(a: int, b: int): int {
    if a < b then b else a
  }

  /** `reduce(0) { max($1.count, $0) }`: the length of the longest row, 0 for no rows. */
  function MaxRowLength(table: seq<seq<int>>): (m: nat)
    ensures forall i :: 0 <= i < |table| ==> |table[i]| <= m
    ensures |table| == 0 ==> m == 0
    ensures |table| > 0 ==> exists i :: 0 <= i < |table| && |table[i]| == m
    decreases |table|
  {
    if |table| == 0 then 0 else Max(|table[|table| - 1]|, MaxRowLength(table[..|table| - 1]))
  }

  /** `row.max() ?? 0`: the largest entry, 0 for an empty row. */
  function RowMax(row: seq<int>): (m: int)
    ensures forall j :: 0 <= j < |row| ==> row[j] <= m
    ensures |row| == 0 ==> m == 0
    ensures |row| > 0 ==> exists j :: 0 <= j < |row| && row[j] == m
    decreases |row|
  {
    if |row| == 0 then 0
    else if |row| == 1 then row[0]
    else Max(row[|row| - 1], RowMax(row[..|row| - 1]))
  }

  /** `reduce(0) { max($1.max() ?? 0, $0) }`: the largest entry of any row, but never below 0. */
  function MaxPipsPerRow(table: seq<seq<int>>): (m: int)
    ensures 0 <= m
    ensures forall i, j :: 0 <= i < |table| && 0 <= j < |table[i]| ==> table[i][j] <= m
    ensures m == 0 || exists i, j :: 0 <= i < |table| && 0 <= j < |table[i]| && table[i][j] == m
    decreases |table|
  {
    if |table| == 0 then 0 else Max(RowMax(table[|table| - 1]), MaxPipsPerRow(table[..|table| - 1]))
  }

  /** Row entries of the table: 0 for rank 0, and 1 or 2 for every other rank. */
  lemma TableEntries(r: nat, j: nat)
    requires r < |PipsPerRowForRank| && j < |PipsPerRowForRank[r]|
    ensures r == 0 ==> PipsPerRowForRank[r][j] == 0
    ensures r > 0 ==> PipsPerRowForRank[r][j] == 1 || PipsPerRowForRank[r][j] == 2
  {
  }

  /** The table has at most five rows per rank and at most two pips per row, both attained. */
  lemma TableShape()
    ensures MaxRowLength(PipsPerRowForRank) == 5
    ensures MaxPipsPerRow(PipsPerRowForRank) == 2
  {
    var t := PipsPerRowForRank;
    assert |t[9]| == 5;
    assert t[4][0] == 2;
    forall r, j | 0 <= r < |t| && 0 <= j < |t[r]|
      ensures t[r][j] <= 2
    {
      TableEntries(r, j);
    }
  }
}
