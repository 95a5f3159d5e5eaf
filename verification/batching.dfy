/**
 * The shape of the streamed output: rows are cut into consecutive batches of
 * at most 1000, and each batch is written column by column (the transpose of
 * its rows).
 */
module Batching {

  /** A record is flushed after every `BatchSize`-th row. */
  const BatchSize: nat := 1000

  /** Consecutive chunks of `BatchSize` rows, the last one holding the remainder. */
  function Chunks<T>(rows: seq<T>): seq<seq<T>>
    decreases |rows|
  {
    if |rows| == 0 then []
    else if |rows| <= BatchSize then [rows]
    else [rows[..BatchSize]] + Chunks(rows[BatchSize..])
  }

  function Flatten<T>(cs: seq<seq<T>>): seq<T>
  {
    if |cs| == 0 then [] else cs[0] + Flatten(cs[1..])
  }

  /** Concatenating the chunks gives back the rows, in order. */
  lemma {:induction false} ChunksFlatten<T>(rows: seq<T>)
    ensures Flatten(Chunks(rows)) == rows
    decreases |rows|
  {
    if |rows| > BatchSize {
      ChunksFlatten(rows[BatchSize..]);
      assert Chunks(rows)[1..] == Chunks(rows[BatchSize..]);
      assert rows == rows[..BatchSize] + rows[BatchSize..];
    }
  }

  /**
   * n rows give ceil(n / 1000) chunks (none for no rows); every chunk is
   * non-empty and at most 1000 long, and all but the last are full.
   */
  lemma {:induction false} ChunksSizes<T>(rows: seq<T>)
    ensures |Chunks(rows)| == (|rows| + BatchSize - 1) / BatchSize
    ensures forall k :: 0 <= k < |Chunks(rows)| ==> 0 < |Chunks(rows)[k]| <= BatchSize
    ensures forall k :: 0 <= k < |Chunks(rows)| - 1 ==> |Chunks(rows)[k]| == BatchSize
    decreases |rows|
  {
    if |rows| > BatchSize {
      var rest := rows[BatchSize..];
      ChunksSizes(rest);
      assert Chunks(rows) == [rows[..BatchSize]] + Chunks(rest);
      assert forall k :: 1 <= k < |Chunks(rows)| ==> Chunks(rows)[k] == Chunks(rest)[k - 1];
    }
  }

  /**
   * Cutting a prefix of whole chunks followed by at most one chunk: the
   * chunking proceeds left to right, as the streaming loop does.
   */
  lemma {:induction false} ChunksExtend<T>(xs: seq<T>, ys: seq<T>)
    requires |xs| % BatchSize == 0
    requires 0 < |ys| <= BatchSize
    ensures Chunks(xs + ys) == Chunks(xs) + [ys]
    decreases |xs|
  {
    if |xs| > 0 {
      var tail := xs[BatchSize..];
      ChunksExtend(tail, ys);
      assert (xs + ys)[..BatchSize] == xs[..BatchSize];
      assert (xs + ys)[BatchSize..] == tail + ys;
      if |xs| == BatchSize {
        assert tail == [];
        assert tail + ys == ys;
      }
    } else {
      assert xs + ys == ys;
    }
  }

  /** Every row has width `w`. */
  predicate Rectangular<T>(rows: seq<seq<T>>, w: nat)
  {
    forall r :: 0 <= r < |rows| ==> |rows[r]| == w
  }

  /** The columns of a batch of rows of width `w`: column `j` lists `rows[r][j]` for each row. */
  function Transpose<T>(rows: seq<seq<T>>, w: nat): seq<seq<T>>
    requires Rectangular(rows, w)
  {
    seq(w, j requires 0 <= j < w => seq(|rows|, r requires 0 <= r < |rows| => rows[r][j]))
  }

  /** Appends one cell of `row` to each column. */
  function AppendRow<T>(cols: seq<seq<T>>, row: seq<T>): seq<seq<T>>
    requires |row| == |cols|
  {
    seq(|cols|, j requires 0 <= j < |cols| => cols[j] + [row[j]])
  }

  /** Appends the cells `row[..n]` to the first `n` columns. */
  function AppendRowUpTo<T>(cols: seq<seq<T>>, row: seq<T>, n: nat): seq<seq<T>>
    requires |row| == |cols|
  {
    seq(|cols|, j requires 0 <= j < |cols| => if j < n then cols[j] + [row[j]] else cols[j])
  }

  lemma AppendRowStep<T>(cols: seq<seq<T>>, row: seq<T>, n: nat)
    requires |row| == |cols| && n < |cols|
    ensures AppendRowUpTo(cols, row, n)[n := cols[n] + [row[n]]] == AppendRowUpTo(cols, row, n + 1)
  {
  }

  lemma AppendRowDone<T>(cols: seq<seq<T>>, row: seq<T>)
    requires |row| == |cols|
    ensures AppendRowUpTo(cols, row, 0) == cols
    ensures AppendRowUpTo(cols, row, |cols|) == AppendRow(cols, row)
  {
  }

  /** Appending a row to the columns of a batch gives the columns of the longer batch. */
  lemma TransposeSnoc<T>(rows: seq<seq<T>>, row: seq<T>, w: nat)
    requires Rectangular(rows, w) && |row| == w
    ensures Rectangular(rows + [row], w)
    ensures AppendRow(Transpose(rows, w), row) == Transpose(rows + [row], w)
  {
    var a, b := AppendRow(Transpose(rows, w), row), Transpose(rows + [row], w);
    forall j | 0 <= j < w ensures a[j] == b[j] {
      assert |a[j]| == |b[j]| == |rows| + 1;
    }
  }

  /** The records written for a sequence of chunks. */
  function Records<T>(chunks: seq<seq<seq<T>>>, w: nat): seq<seq<seq<T>>>
    requires forall k :: 0 <= k < |chunks| ==> Rectangular(chunks[k], w)
  {
    seq(|chunks|, k requires 0 <= k < |chunks| => Transpose(chunks[k], w))
  }

  lemma {:induction false} ChunksRectangular<T>(rows: seq<seq<T>>, w: nat)
    requires Rectangular(rows, w)
    ensures forall k :: 0 <= k < |Chunks(rows)| ==> Rectangular(Chunks(rows)[k], w)
    decreases |rows|
  {
    if |rows| > BatchSize {
      ChunksRectangular(rows[BatchSize..], w);
      assert forall k :: 1 <= k < |Chunks(rows)| ==> Chunks(rows)[k] == Chunks(rows[BatchSize..])[k - 1];
    }
  }

  /** Column `j` of the whole stream: the concatenation of column `j` of every record. */
  function StreamColumn<T>(records: seq<seq<seq<T>>>, j: nat): seq<T>
    requires forall k :: 0 <= k < |records| ==> j < |records[k]|
  {
    if |records| == 0 then [] else records[0][j] + StreamColumn(records[1..], j)
  }

  /**
   * Reading column `j` across all records, in the order they were written,
   * gives column `j` of every row in input order: batching neither drops,
   * duplicates nor reorders rows.
   */
  lemma {:induction false} StreamColumnInOrder<T>(rows: seq<seq<T>>, w: nat, j: nat)
    requires Rectangular(rows, w) && j < w
    ensures forall k :: 0 <= k < |Chunks(rows)| ==> Rectangular(Chunks(rows)[k], w)
    ensures StreamColumn(Records(Chunks(rows), w), j) == seq(|rows|, r requires 0 <= r < |rows| => rows[r][j])
    decreases |rows|
  {
    ChunksRectangular(rows, w);
    var recs := Records(Chunks(rows), w);
    if |rows| == 0 {
    } else if |rows| <= BatchSize {
      assert recs == [Transpose(rows, w)];
      assert recs[1..] == [];
    } else {
      var rest := rows[BatchSize..];
      assert Rectangular(rest, w);
      StreamColumnInOrder(rest, w, j);
      assert Rectangular(rows[..BatchSize], w);
      assert recs[1..] == Records(Chunks(rest), w);
      assert recs[0] == Transpose(rows[..BatchSize], w);
    }
  }

  /**
   * The shape of every record: `w` columns, all as long as the record's chunk,
   * that length between 1 and 1000, and the cell in column `j`, row `r` of the
   * record is cell `j` of row `r` of its chunk.
   */
  lemma RecordShape<T>(rows: seq<seq<T>>, w: nat)
    requires Rectangular(rows, w)
    ensures forall k :: 0 <= k < |Chunks(rows)| ==> Rectangular(Chunks(rows)[k], w)
    ensures var recs := Records(Chunks(rows), w);
      forall k :: 0 <= k < |recs| ==>
        && |recs[k]| == w
        && 0 < |Chunks(rows)[k]| <= BatchSize
        && forall j :: 0 <= j < w ==>
             |recs[k][j]| == |Chunks(rows)[k]|
             && forall r :: 0 <= r < |Chunks(rows)[k]| ==> recs[k][j][r] == Chunks(rows)[k][r][j]
  {
    ChunksRectangular(rows, w);
    ChunksSizes(rows);
  }

  /** Row `r` of chunk `k` is row `k * 1000 + r` of the input. */
  lemma {:induction false} ChunkAt<T>(rows: seq<T>, k: nat, r: nat)
    requires k < |Chunks(rows)| && r < |Chunks(rows)[k]|
    ensures k * BatchSize + r < |rows| && Chunks(rows)[k][r] == rows[k * BatchSize + r]
    decreases |rows|
  {
    if |rows| > BatchSize && k > 0 {
      var rest := rows[BatchSize..];
      assert Chunks(rows)[k] == Chunks(rest)[k - 1];
      ChunkAt(rest, k - 1, r);
      assert (k - 1) * BatchSize + r + BatchSize == k * BatchSize + r;
    }
  }

  /** The records written for `rows`: one per chunk, each the transpose of its chunk. */
  function Encoded<T>(rows: seq<seq<T>>, w: nat): (recs: seq<seq<seq<T>>>)
    requires Rectangular(rows, w)
    ensures forall k :: 0 <= k < |Chunks(rows)| ==> Rectangular(Chunks(rows)[k], w)
  {
    ChunksRectangular(rows, w);
    Records(Chunks(rows), w)
  }

  /** Flushing one more chunk after whole chunks adds exactly its record at the end. */
  lemma EncodedExtend<T>(xs: seq<seq<T>>, ys: seq<seq<T>>, w: nat)
    requires Rectangular(xs, w) && Rectangular(ys, w)
    requires |xs| % BatchSize == 0 && 0 < |ys| <= BatchSize
    ensures Rectangular(xs + ys, w)
    ensures Encoded(xs + ys, w) == Encoded(xs, w) + [Transpose(ys, w)]
  {
    assert Rectangular(xs + ys, w) by {
      forall r | 0 <= r < |xs + ys| ensures |(xs + ys)[r]| == w {
        if r >= |xs| {
          assert (xs + ys)[r] == ys[r - |xs|];
        }
      }
    }
    ChunksExtend(xs, ys);
    var a, b := Encoded(xs + ys, w), Encoded(xs, w) + [Transpose(ys, w)];
    assert |a| == |b|;
    forall k | 0 <= k < |a| ensures a[k] == b[k] {
      if k < |Chunks(xs)| {
        assert Chunks(xs + ys)[k] == Chunks(xs)[k];
      } else {
        assert Chunks(xs + ys)[k] == ys;
      }
    }
  }

  /** Columns that are all empty are the columns of an empty batch. */
  lemma TransposeEmpty<T>(cols: seq<seq<T>>, w: nat)
    requires |cols| == w && forall j :: 0 <= j < w ==> cols[j] == []
    ensures cols == Transpose([], w)
  {
    var e: seq<seq<T>> := [];
    assert forall j :: 0 <= j < w ==> Transpose(e, w)[j] == [];
  }

  /**
   * One step of the streaming loop over row `i`: appending the row extends the
   * pending batch, and when `i + 1` is a multiple of 1000 the pending batch is
   * exactly the next record of the output.
   */
  lemma StreamStep<T>(rows: seq<seq<T>>, w: nat, i: nat)
    requires Rectangular(rows, w) && i < |rows|
    ensures var done, next := i - i % BatchSize, (i + 1) - (i + 1) % BatchSize;
      && AppendRow(Transpose(rows[done..i], w), rows[i]) == Transpose(rows[done..i + 1], w)
      && ((i + 1) % BatchSize == 0 ==>
            next == i + 1 && Encoded(rows[..next], w) == Encoded(rows[..done], w) + [Transpose(rows[done..i + 1], w)])
      && ((i + 1) % BatchSize != 0 ==> next == done)
  {
    var done := i - i % BatchSize;
    TransposeSnoc(rows[done..i], rows[i], w);
    assert rows[done..i] + [rows[i]] == rows[done..i + 1];
    if (i + 1) % BatchSize == 0 {
      EncodedExtend(rows[..done], rows[done..i + 1], w);
      assert rows[..done] + rows[done..i + 1] == rows[..i + 1];
    }
  }

  /** After the last row, a non-empty pending batch is the final record of the output. */
  lemma StreamEnd<T>(rows: seq<seq<T>>, w: nat)
    requires Rectangular(rows, w)
    ensures var done := |rows| - |rows| % BatchSize;
      && (done < |rows| ==> Encoded(rows, w) == Encoded(rows[..done], w) + [Transpose(rows[done..], w)])
      && (done == |rows| ==> Encoded(rows[..done], w) == Encoded(rows, w))
  {
    var done := |rows| - |rows| % BatchSize;
    if done < |rows| {
      EncodedExtend(rows[..done], rows[done..], w);
      assert rows[..done] + rows[done..] == rows;
    } else {
      assert rows[..done] == rows;
    }
  }

  /** Chunk `k` holds 1000 rows, or whatever remains after the `k` full chunks before it. */
  lemma {:induction false} ChunkLength<T>(rows: seq<T>, k: nat)
    requires k < |Chunks(rows)|
    ensures k * BatchSize < |rows|
    ensures |Chunks(rows)[k]| == if |rows| - k * BatchSize < BatchSize then |rows| - k * BatchSize else BatchSize
    decreases |rows|
  {
    if |rows| > BatchSize && k > 0 {
      var rest := rows[BatchSize..];
      assert Chunks(rows)[k] == Chunks(rest)[k - 1];
      ChunkLength(rest, k - 1);
      assert (k - 1) * BatchSize + BatchSize == k * BatchSize;
    }
  }

  /** Row `n` of the input is row `n % 1000` of chunk `n / 1000`. */
  lemma ChunkOfRow<T>(rows: seq<T>, n: nat)
    requires n < |rows|
    ensures n / BatchSize < |Chunks(rows)| && n % BatchSize < |Chunks(rows)[n / BatchSize]|
    ensures Chunks(rows)[n / BatchSize][n % BatchSize] == rows[n]
  {
    var k, r := n / BatchSize, n % BatchSize;
    assert k * BatchSize + r == n;
    ChunksSizes(rows);
    assert k < |Chunks(rows)|;
    ChunkLength(rows, k);
    ChunkAt(rows, k, r);
  }
}
