/** Disk blocks as the log and the buffer cache see them.

    A block is a sequence of words, a disk is a sequence of blocks, and a block
    write is atomic (memide.c's `iderw` copies a whole block). */
module Blocks {

  type Block = seq<int>
  type Image = seq<Block>

  /** One block write handed to the disk. */
  datatype Write = Write(b: nat, v: Block)

  predicate WritesFit(d: Image, ws: seq<Write>) {
    forall i | 0 <= i < |ws| :: ws[i].b < |d|
  }

  /** The disk after the writes of `ws`, first to last. */
  function Apply(d: Image, ws: seq<Write>): (r: Image)
    requires WritesFit(d, ws)
    ensures |r| == |d|
    decreases |ws|
  {
    if ws == [] then d
    else
      var last := ws[|ws| - 1];
      Apply(d, ws[..|ws| - 1])[last.b := last.v]
  }

  /** Appending one write. */
  lemma ApplySnoc(d: Image, ws: seq<Write>, w: Write)
    requires WritesFit(d, ws) && w.b < |d|
    ensures WritesFit(d, ws + [w])
    ensures Apply(d, ws + [w]) == Apply(d, ws)[w.b := w.v]
  {
    assert (ws + [w])[..|ws|] == ws;
  }

  lemma TraceNext(ws: seq<Write>, k: nat, trace: seq<Write>)
    requires k < |ws|
    ensures ws[..k + 1] == ws[..k] + [ws[k]]
    ensures trace + ws[..k + 1] == trace + ws[..k] + [ws[k]]
  {
  }
}
