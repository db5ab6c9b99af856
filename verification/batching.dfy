/** The batching loop shared by every loader: rows are appended to a batch,
    a batch is sent with `executemany` as soon as it holds 1000 rows, and a
    non-empty remainder is sent after the loop. */
module Batching {
  import opened Seqs

  /** `batch_size` in every loader. */
  const BatchSize: nat := 1000

  /** The batches already sent and the batch still being filled. */
  datatype Progress<T> = Progress(sent: seq<seq<T>>, pending: seq<T>)

  /** The loop body `batch.append(row); if len(batch) == batch_size: send`,
      run over `rows` starting from a partly filled `batch`. */
  function Fill<T>(rows: seq<T>, batch: seq<T>, size: nat): Progress<T>
    requires 0 < size && |batch| < size
    decreases |rows|
  {
    if rows == [] then Progress([], batch)
    else
      var b := batch + [rows[0]];
      if |b| == size then
        var rest := Fill(rows[1..], [], size);
        Progress([b] + rest.sent, rest.pending)
      else Fill(rows[1..], b, size)
  }

  /** The `if batch:` after the loop: a non-empty remainder is sent too. */
  function Flush<T>(p: Progress<T>): seq<seq<T>> {
    p.sent + (if p.pending == [] then [] else [p.pending])
  }

  /** The batches a loader sends when the loop runs to completion. */
  function Batches<T>(rows: seq<T>): seq<seq<T>> {
    Flush(Fill(rows, [], BatchSize))
  }

  /** The batches a loader has sent when the loop is interrupted by an
      exception raised while preparing the row after `rows`. */
  function SentBefore<T>(rows: seq<T>): seq<seq<T>> {
    Fill(rows, [], BatchSize).sent
  }

  lemma {:induction false} FillFlushIsChunks<T>(rows: seq<T>, batch: seq<T>, size: nat)
    requires 0 < size && |batch| < size
    ensures Flush(Fill(rows, batch, size)) == Chunks(batch + rows, size)
    decreases |rows|
  {
    if rows == [] {
      assert batch + rows == batch;
    } else {
      var b := batch + [rows[0]];
      assert batch + rows == b + rows[1..];
      if |b| == size {
        var rest := Fill(rows[1..], [], size);
        FillFlushIsChunks(rows[1..], [], size);
        assert [] + rows[1..] == rows[1..];
        assert Flush(Fill(rows, batch, size)) == [b] + Flush(rest);
        var all := batch + rows;
        if |all| == size {
          assert rows[1..] == [];
          assert all == b;
        } else {
          assert all[..size] == b;
          assert all[size..] == rows[1..];
        }
      } else {
        FillFlushIsChunks(rows[1..], b, size);
      }
    }
  }

  /** Every sent batch is full and the pending batch is not. */
  lemma {:induction false} FillSizes<T>(rows: seq<T>, batch: seq<T>, size: nat)
    requires 0 < size && |batch| < size
    ensures forall i :: 0 <= i < |Fill(rows, batch, size).sent| ==> |Fill(rows, batch, size).sent[i]| == size
    ensures |Fill(rows, batch, size).pending| < size
    decreases |rows|
  {
    if rows != [] {
      var b := batch + [rows[0]];
      if |b| == size {
        FillSizes(rows[1..], [], size);
        var rest := Fill(rows[1..], [], size);
        var sent := Fill(rows, batch, size).sent;
        assert sent == [b] + rest.sent;
        assert forall i :: 1 <= i < |sent| ==> sent[i] == rest.sent[i - 1];
      } else {
        FillSizes(rows[1..], b, size);
      }
    }
  }

  /** The sent batches followed by the pending one are the input rows in order. */
  lemma FillCovers<T>(rows: seq<T>, batch: seq<T>, size: nat)
    requires 0 < size && |batch| < size
    ensures Concat(Fill(rows, batch, size).sent) + Fill(rows, batch, size).pending == batch + rows
  {
    var p := Fill(rows, batch, size);
    var tail: seq<seq<T>> := if p.pending == [] then [] else [p.pending];
    FillFlushIsChunks(rows, batch, size);
    ChunksConcat(batch + rows, size);
    ConcatAppend(p.sent, tail);
    if p.pending == [] {
      assert Concat(tail) == [];
      assert Concat(p.sent) + p.pending == Concat(p.sent);
    } else {
      assert Concat(tail) == p.pending + Concat(tail[1..]);
      assert tail[1..] == [];
    }
  }

  lemma {:induction false} ConcatFullLength<T>(ss: seq<seq<T>>, size: nat)
    requires forall i :: 0 <= i < |ss| ==> |ss[i]| == size
    ensures |Concat(ss)| == |ss| * size
  {
    if ss != [] {
      ConcatFullLength(ss[1..], size);
    }
  }

  lemma ModUnique(a: nat, k: nat, size: nat, p: nat)
    requires 0 < size && p < size && a == k * size + p
    ensures p == a % size
  {
    var q, r := a / size, a % size;
    var d := k - q;
    assert d * size == r - p;
  }

  /** Sending in batches covers all rows in order with ceil(N/1000) inserts,
      all full except possibly the last, which is non-empty. */
  lemma BatchesSpec<T>(rows: seq<T>)
    ensures Batches(rows) == Chunks(rows, BatchSize)
    ensures Concat(Batches(rows)) == rows
    ensures |Batches(rows)| == (|rows| + BatchSize - 1) / BatchSize
    ensures forall i :: 0 <= i < |Batches(rows)| ==> 0 < |Batches(rows)[i]| <= BatchSize
    ensures forall i :: 0 <= i < |Batches(rows)| - 1 ==> |Batches(rows)[i]| == BatchSize
  {
    FillFlushIsChunks(rows, [], BatchSize);
    assert [] + rows == rows;
    ChunksConcat(rows, BatchSize);
    ChunksCount(rows, BatchSize);
    ChunksShape(rows, BatchSize);
  }

  /** When the loop is interrupted, exactly the first floor(N/1000)*1000 rows
      have been sent, in full batches; the rows of the unfinished batch are lost. */
  lemma SentBeforeSpec<T>(rows: seq<T>)
    ensures forall i :: 0 <= i < |SentBefore(rows)| ==> |SentBefore(rows)[i]| == BatchSize
    ensures Concat(SentBefore(rows)) == rows[..|rows| - |rows| % BatchSize]
  {
    var p := Fill(rows, [], BatchSize);
    FillSizes(rows, [], BatchSize);
    FillCovers(rows, [], BatchSize);
    assert [] + rows == rows;
    ConcatFullLength(p.sent, BatchSize);
    ModUnique(|rows|, |p.sent|, BatchSize, |p.pending|);
    assert rows[..|Concat(p.sent)|] == Concat(p.sent);
  }
}
