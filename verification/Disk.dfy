/**
  Block device: a sequence of blocks that changes by whole-block writes.
  A crash can fall between two writes but never inside one.
 */
module Disk {

  const WORDS: nat := 128

  /** 512 bytes, seen as 32-bit words. */
  type Words = w: seq<int> | |w| == WORDS witness seq(WORDS, i => 0)

  datatype Block = Block(words: Words)

  type Image = seq<Block>

  datatype Write = Write(blockno: int, data: Block)

  predicate InRange(d: Image, ws: seq<Write>) {
    forall i :: 0 <= i < |ws| ==> 0 <= ws[i].blockno < |d|
  }

  /** The device after the given writes, first to last. */
  function Apply(d: Image, ws: seq<Write>): (r: Image)
    requires InRange(d, ws)
    ensures |r| == |d|
  {
    if ws == [] then d else
      var w := ws[|ws| - 1];
      Apply(d, ws[..|ws| - 1])[w.blockno := w.data]
  }

  lemma {:induction false} ApplyConcat(d: Image, xs: seq<Write>, ys: seq<Write>)
    requires InRange(d, xs) && InRange(d, ys)
    ensures InRange(d, xs + ys)
    ensures Apply(d, xs + ys) == Apply(Apply(d, xs), ys)
  {
    if ys == [] {
      assert xs + ys == xs;
    } else {
      ApplyConcat(d, xs, ys[..|ys| - 1]);
      assert (xs + ys)[..|xs + ys| - 1] == xs + ys[..|ys| - 1];
    }
  }

  lemma ApplySnoc(d: Image, ws: seq<Write>, w: Write)
    requires InRange(d, ws) && 0 <= w.blockno < |d|
    ensures InRange(d, ws + [w]) && Apply(d, ws + [w]) == Apply(d, ws)[w.blockno := w.data]
  {
    assert (ws + [w])[..|ws|] == ws;
  }

  lemma ApplyNext(d: Image, ws: seq<Write>, k: nat)
    requires InRange(d, ws) && k < |ws|
    ensures Apply(d, ws[..k + 1]) == Apply(d, ws[..k])[ws[k].blockno := ws[k].data]
    ensures ws[..k + 1] == ws[..k] + [ws[k]]
  {
    assert ws[..k + 1][..k] == ws[..k];
  }

  /** Blocks that no write names keep their contents. */
  lemma {:induction false} ApplyFrame(d: Image, ws: seq<Write>, b: nat)
    requires InRange(d, ws) && b < |d|
    requires forall i :: 0 <= i < |ws| ==> ws[i].blockno != b
    ensures Apply(d, ws)[b] == d[b]
  {
    if ws != [] {
      ApplyFrame(d, ws[..|ws| - 1], b);
    }
  }

  /** One of the first k writes goes to b. */
  predicate Names(ws: seq<Write>, k: nat, b: int)
    requires k <= |ws|
  {
    exists i :: 0 <= i < k && ws[i].blockno == b
  }

  /** Writes that all carry target's contents bring the blocks they name to target. */
  lemma {:induction false} ApplyToward(d: Image, ws: seq<Write>, target: Image, k: nat, b: nat)
    requires InRange(d, ws) && |target| == |d| && b < |d| && k <= |ws|
    requires forall i :: 0 <= i < |ws| ==> ws[i].data == target[ws[i].blockno]
    ensures Apply(d, ws[..k])[b] == if Names(ws, k, b) then target[b] else d[b]
  {
    if k == 0 {
      assert ws[..0] == [];
    } else {
      ApplyToward(d, ws, target, k - 1, b);
      ApplyNext(d, ws, k - 1);
      assert Names(ws, k, b) <==> Names(ws, k - 1, b) || ws[k - 1].blockno == b;
    }
  }
}
