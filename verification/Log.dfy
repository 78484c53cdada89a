/**
  The on-disk redo log of log.c: the exact block writes that commit() and
  recover_from_log() issue, and what any prefix of them leaves behind.
 */
module Log {
  import opened Disk

  const MAXOPBLOCKS: nat := 10
  const LOGSIZE: nat := 3 * MAXOPBLOCKS

  /** log.start and log.size: a header block followed by size - 1 data blocks. */
  datatype Region = Region(start: nat, size: nat) {
    predicate Holds(b: int) { start <= b < start + size }
  }

  predicate Fits(r: Region, d: Image) {
    1 <= r.size && r.start + r.size <= |d|
  }

  /** A home block: on the device and not in the log itself. */
  predicate Home(r: Region, d: Image, b: int) {
    0 <= b < |d| && !r.Holds(b)
  }

  /** Home blocks, few enough to fit the log. */
  predicate Loggable(r: Region, d: Image, blocks: seq<int>) {
    && |blocks| <= LOGSIZE && |blocks| <= r.size - 1
    && (forall i :: 0 <= i < |blocks| ==> Home(r, d, blocks[i]))
  }

  // The header block: word 0 is n, words 1..n are block numbers, and the
  // words behind them are whatever an earlier, longer header left there.

  predicate HeadOk(r: Region, d: Image)
    requires Fits(r, d)
  {
    0 <= d[r.start].words[0] <= LOGSIZE && Loggable(r, d, Head(d[r.start]))
  }

  function Head(b: Block): (blocks: seq<int>)
    requires 0 <= b.words[0] <= LOGSIZE
  {
    b.words[1..1 + b.words[0]]
  }

  function PutHead(b: Block, blocks: seq<int>): (h: Block)
    requires |blocks| <= LOGSIZE
    ensures h.words[0] == |blocks| && Head(h) == blocks
  {
    Block([|blocks|] + blocks + b.words[1 + |blocks|..])
  }

  // The writes of each phase of log.c, as functions of the device they start
  // from and of mem, the logical (cached) contents of every block.

  function LogWrites(r: Region, blocks: seq<int>, mem: Image): (ws: seq<Write>)
    requires Loggable(r, mem, blocks)
  {
    seq(|blocks|, i requires 0 <= i < |blocks| => Write(r.start + 1 + i, mem[blocks[i]]))
  }

  function HeadWrite(r: Region, d: Image, blocks: seq<int>): (w: Write)
    requires Fits(r, d) && |blocks| <= LOGSIZE
  {
    Write(r.start, PutHead(d[r.start], blocks))
  }

  function InstallWrites(r: Region, d: Image, blocks: seq<int>): (ws: seq<Write>)
    requires Fits(r, d) && Loggable(r, d, blocks)
  {
    seq(|blocks|, i requires 0 <= i < |blocks| => Write(blocks[i], d[r.start + 1 + i]))
  }

  /** recover_from_log: install what the header lists, then clear the header. */
  function RecoverWrites(r: Region, d: Image): (ws: seq<Write>)
    requires Fits(r, d) && HeadOk(r, d)
    ensures InRange(d, ws)
  {
    InstallWrites(r, d, Head(d[r.start])) + [HeadWrite(r, d, [])]
  }

  /** The device right after the header write of a non-empty transaction. */
  function Committed(r: Region, d: Image, blocks: seq<int>, mem: Image): (e: Image)
    requires Fits(r, d) && Loggable(r, d, blocks) && |mem| == |d|
    ensures |e| == |d|
  {
    Apply(d, LogWrites(r, blocks, mem))[r.start := PutHead(d[r.start], blocks)]
  }

  /** commit: nothing for an empty transaction, else log, header, install, clear. */
  function CommitWrites(r: Region, d: Image, blocks: seq<int>, mem: Image): (ws: seq<Write>)
    requires Fits(r, d) && Loggable(r, d, blocks) && |mem| == |d|
    ensures InRange(d, ws)
    ensures |ws| == if blocks == [] then 0 else 2 * |blocks| + 2
  {
    if blocks == [] then [] else
      LogWrites(r, blocks, mem) + [HeadWrite(r, d, blocks)] + RecoverWrites(r, Committed(r, d, blocks, mem))
  }

  /** The transaction applied in one go. */
  function Merge(d: Image, blocks: seq<int>, mem: Image): (e: Image)
    requires |mem| == |d|
  {
    seq(|d|, b requires 0 <= b < |d| => if b in blocks then mem[b] else d[b])
  }

  /**
    Recovering d would leave the home blocks of target: a block the header
    lists is taken from its log slot, every other one from its own place.
   */
  ghost predicate Shows(r: Region, d: Image, target: Image) {
    && Fits(r, d) && HeadOk(r, d) && |target| == |d|
    && var blocks := Head(d[r.start]);
    && (forall i :: 0 <= i < |blocks| ==> target[blocks[i]] == d[r.start + 1 + i])
    && (forall b :: Home(r, d, b) && b !in blocks ==> target[b] == d[b])
  }

  ghost predicate Cleared(r: Region, d: Image) {
    Fits(r, d) && d[r.start].words[0] == 0
  }

  ghost predicate HomeEq(r: Region, d: Image, e: Image) {
    |d| == |e| && forall b :: Home(r, d, b) ==> d[b] == e[b]
  }

  lemma ShowsCleared(r: Region, d: Image, target: Image)
    requires Cleared(r, d)
    ensures Shows(r, d, target) <==> HomeEq(r, d, target)
  {
    assert Head(d[r.start]) == [];
  }

  /** Two devices with the same log region. */
  ghost predicate SameLog(r: Region, d: Image, e: Image) {
    && Fits(r, d) && |d| == |e|
    && forall b :: r.Holds(b) ==> e[b] == d[b]
  }

  /** With the log untouched, e shows what d shows if each home block is old or installed. */
  lemma ShowsSame(r: Region, d: Image, e: Image, target: Image)
    requires Shows(r, d, target) && SameLog(r, d, e)
    requires forall b :: Home(r, d, b) ==> e[b] == d[b] || e[b] == target[b]
    ensures Shows(r, e, target) && e[r.start] == d[r.start]
  {
    assert r.Holds(r.start);
    var blocks := Head(d[r.start]);
    forall i | 0 <= i < |blocks|
      ensures target[blocks[i]] == e[r.start + 1 + i]
    {
      assert r.Holds(r.start + 1 + i);
    }
  }

  /** Every install carries what d shows for a home block. */
  lemma InstallsToward(r: Region, d: Image, target: Image)
    requires Shows(r, d, target)
    ensures var ws := InstallWrites(r, d, Head(d[r.start]));
            && InRange(d, ws)
            && forall i :: 0 <= i < |ws| ==> !r.Holds(ws[i].blockno) && ws[i].data == target[ws[i].blockno]
  {
  }

  /** After the first k installs: blocks they name are home, all others are as they were. */
  lemma InstalledAt(r: Region, d: Image, target: Image, k: nat)
    requires Shows(r, d, target) && k <= |Head(d[r.start])|
    ensures var ws := InstallWrites(r, d, Head(d[r.start]));
            forall b :: 0 <= b < |d| ==> Apply(d, ws[..k])[b] == if Names(ws, k, b) then target[b] else d[b]
  {
    var ws := InstallWrites(r, d, Head(d[r.start]));
    InstallsToward(r, d, target);
    forall b | 0 <= b < |d|
      ensures Apply(d, ws[..k])[b] == if Names(ws, k, b) then target[b] else d[b]
    {
      ApplyToward(d, ws, target, k, b);
    }
  }

  lemma AfterInstalls(r: Region, d: Image, target: Image, k: nat)
    requires Shows(r, d, target) && k <= |Head(d[r.start])|
    ensures var e := Apply(d, InstallWrites(r, d, Head(d[r.start]))[..k]);
            Shows(r, e, target) && e[r.start] == d[r.start]
  {
    var ws := InstallWrites(r, d, Head(d[r.start]));
    var e := Apply(d, ws[..k]);
    InstallsToward(r, d, target);
    InstalledAt(r, d, target, k);
    forall b | r.Holds(b)
      ensures e[b] == d[b]
    {
      assert !Names(ws, k, b);
    }
    ShowsSame(r, d, e, target);
  }

  /** After all installs the home blocks are the target's. */
  lemma AllInstalled(r: Region, d: Image, target: Image)
    requires Shows(r, d, target)
    ensures HomeEq(r, Apply(d, InstallWrites(r, d, Head(d[r.start]))), target)
  {
    var blocks := Head(d[r.start]);
    var ws := InstallWrites(r, d, blocks);
    InstalledAt(r, d, target, |ws|);
    assert ws[..|ws|] == ws;
    forall b | Home(r, d, b)
      ensures Apply(d, ws)[b] == target[b]
    {
      if b in blocks {
        var i :| 0 <= i < |blocks| && blocks[i] == b;
        assert ws[i].blockno == b;
      }
    }
  }

  /** The writes and the effect of a complete recovery, phase by phase. */
  lemma RecoverSplit(r: Region, d: Image)
    requires Fits(r, d) && HeadOk(r, d)
    ensures var iw := InstallWrites(r, d, Head(d[r.start]));
            var e := Apply(d, iw);
            && e[r.start] == d[r.start]
            && RecoverWrites(r, d) == iw + [HeadWrite(r, e, [])]
            && Recover(r, d) == e[r.start := PutHead(e[r.start], [])]
  {
    var iw := InstallWrites(r, d, Head(d[r.start]));
    ApplyFrame(d, iw, r.start);
    ApplySnoc(d, iw, HeadWrite(r, d, []));
  }

  /** One crashed attempt at recovery, cut after any number of its writes, loses nothing. */
  lemma RecoveryPrefix(r: Region, d: Image, target: Image, k: nat)
    requires Shows(r, d, target) && k <= |RecoverWrites(r, d)|
    ensures Shows(r, Apply(d, RecoverWrites(r, d)[..k]), target)
    ensures k == |RecoverWrites(r, d)| ==> Cleared(r, Apply(d, RecoverWrites(r, d)[..k]))
  {
    var ws := InstallWrites(r, d, Head(d[r.start]));
    var rw := RecoverWrites(r, d);
    if k <= |ws| {
      AfterInstalls(r, d, target, k);
      assert rw[..k] == ws[..k];
    } else {
      assert rw[..k] == rw;
      RecoverSplit(r, d);
      AllInstalled(r, d, target);
      ShowsCleared(r, Apply(d, rw), target);
    }
  }

  function Recover(r: Region, d: Image): (e: Image)
    requires Fits(r, d) && HeadOk(r, d)
  {
    Apply(d, RecoverWrites(r, d))
  }

  /** e is d after a recovery that stopped somewhere, possibly at its end. */
  ghost predicate CrashedRecovery(r: Region, d: Image, e: Image) {
    && Fits(r, d) && HeadOk(r, d)
    && exists k: nat :: k <= |RecoverWrites(r, d)| && e == Apply(d, RecoverWrites(r, d)[..k])
  }

  ghost predicate CrashedRecoveries(r: Region, ds: seq<Image>) {
    |ds| > 0 && forall i :: 0 < i < |ds| ==> CrashedRecovery(r, ds[i - 1], ds[i])
  }

  /** Any number of crashed recoveries followed by a complete one brings target home. */
  lemma {:induction false} RecoveryIdempotent(r: Region, ds: seq<Image>, target: Image)
    requires CrashedRecoveries(r, ds) && Shows(r, ds[0], target)
    ensures var d := ds[|ds| - 1];
            && Shows(r, d, target)
            && Cleared(r, Recover(r, d)) && HomeEq(r, Recover(r, d), target)
  {
    var rw := RecoverWrites(r, ds[0]);
    if |ds| == 1 {
      RecoveryPrefix(r, ds[0], target, |rw|);
      assert rw[..|rw|] == rw;
      ShowsCleared(r, Recover(r, ds[0]), target);
    } else {
      assert CrashedRecovery(r, ds[0], ds[1]);
      var k: nat :| k <= |rw| && ds[1] == Apply(ds[0], rw[..k]);
      RecoveryPrefix(r, ds[0], target, k);
      forall i | 0 < i < |ds| - 1
        ensures CrashedRecovery(r, ds[1..][i - 1], ds[1..][i])
      {
        assert CrashedRecovery(r, ds[i], ds[i + 1]);
      }
      RecoveryIdempotent(r, ds[1..], target);
    }
  }

  /** After the first k log writes the log has filled and nothing else has moved. */
  lemma {:induction false} LogFills(r: Region, d: Image, blocks: seq<int>, mem: Image, k: nat)
    requires Fits(r, d) && Loggable(r, d, blocks) && |mem| == |d| && k <= |blocks|
    ensures var e := Apply(d, LogWrites(r, blocks, mem)[..k]);
            && (forall b :: r.start < b <= r.start + k ==> e[b] == mem[blocks[b - r.start - 1]])
            && (forall b :: 0 <= b < |d| && !(r.start < b <= r.start + k) ==> e[b] == d[b])
  {
    var ws := LogWrites(r, blocks, mem);
    if k == 0 {
      assert ws[..0] == [];
    } else {
      LogFills(r, d, blocks, mem, k - 1);
      ApplyNext(d, ws, k - 1);
    }
  }

  lemma BeforeHead(r: Region, d: Image, blocks: seq<int>, mem: Image, k: nat)
    requires Cleared(r, d) && Loggable(r, d, blocks) && |mem| == |d| && k <= |blocks|
    ensures var e := Apply(d, LogWrites(r, blocks, mem)[..k]); Cleared(r, e) && Shows(r, e, d)
  {
    LogFills(r, d, blocks, mem, k);
    ShowsCleared(r, Apply(d, LogWrites(r, blocks, mem)[..k]), d);
  }

  lemma CommittedAt(r: Region, d: Image, blocks: seq<int>, mem: Image)
    requires Fits(r, d) && Loggable(r, d, blocks) && |mem| == |d|
    ensures var e := Committed(r, d, blocks, mem);
            && e[r.start] == PutHead(d[r.start], blocks)
            && (forall i :: 0 <= i < |blocks| ==> mem[blocks[i]] == e[r.start + 1 + i])
            && (forall b :: Home(r, d, b) ==> e[b] == d[b])
  {
    var lw := LogWrites(r, blocks, mem);
    LogFills(r, d, blocks, mem, |blocks|);
    assert lw[..|blocks|] == lw;
  }

  /** The header write is the commit point: from there on the new home blocks show. */
  lemma AtHead(r: Region, d: Image, blocks: seq<int>, mem: Image)
    requires Fits(r, d) && Loggable(r, d, blocks) && |mem| == |d|
    ensures var e := Committed(r, d, blocks, mem);
            Head(e[r.start]) == blocks && Shows(r, e, Merge(d, blocks, mem))
  {
    CommittedAt(r, d, blocks, mem);
    ShowsListed(r, d, Committed(r, d, blocks, mem), blocks, mem);
  }

  lemma ShowsListed(r: Region, d: Image, e: Image, blocks: seq<int>, mem: Image)
    requires Fits(r, d) && Loggable(r, d, blocks) && |mem| == |d| == |e|
    requires e[r.start] == PutHead(d[r.start], blocks)
    requires forall i :: 0 <= i < |blocks| ==> mem[blocks[i]] == e[r.start + 1 + i]
    requires forall b :: Home(r, d, b) ==> e[b] == d[b]
    ensures Shows(r, e, Merge(d, blocks, mem))
  {
    assert Head(e[r.start]) == blocks;
  }

  /** The first n + 1 writes of commit() lead to the committed device. */
  lemma CommitFront(r: Region, d: Image, blocks: seq<int>, mem: Image)
    requires Fits(r, d) && Loggable(r, d, blocks) && |mem| == |d|
    ensures var lw := LogWrites(r, blocks, mem);
            && Apply(d, lw)[r.start] == d[r.start]
            && InRange(d, lw + [HeadWrite(r, d, blocks)])
            && Apply(d, lw + [HeadWrite(r, d, blocks)]) == Committed(r, d, blocks, mem)
  {
    var lw := LogWrites(r, blocks, mem);
    ApplyFrame(d, lw, r.start);
    ApplySnoc(d, lw, HeadWrite(r, d, blocks));
  }

  lemma FrontAndBack(front: seq<Write>, back: seq<Write>, k: nat)
    requires |front| <= k <= |front| + |back|
    ensures (front + back)[..k] == front + back[..k - |front|]
  {
  }

  /** The device after k > n writes of commit() is the committed one after k - n - 1 of recovery. */
  lemma CommitBack(r: Region, d: Image, blocks: seq<int>, mem: Image, k: nat)
    requires Fits(r, d) && Loggable(r, d, blocks) && |mem| == |d|
    requires |blocks| < k <= |CommitWrites(r, d, blocks, mem)|
    ensures var e := Committed(r, d, blocks, mem);
            Apply(d, CommitWrites(r, d, blocks, mem)[..k]) == Apply(e, RecoverWrites(r, e)[..k - |blocks| - 1])
  {
    var front := LogWrites(r, blocks, mem) + [HeadWrite(r, d, blocks)];
    var back := RecoverWrites(r, Committed(r, d, blocks, mem));
    CommitFront(r, d, blocks, mem);
    hide LogWrites, HeadWrite, RecoverWrites, Committed, Fits, Loggable, Apply;
    FrontAndBack(front, back, k);
    ApplyConcat(d, front, back[..k - |front|]);
  }

  lemma CommitAll(r: Region, d: Image, blocks: seq<int>, mem: Image)
    requires Fits(r, d) && Loggable(r, d, blocks) && |mem| == |d| && blocks != []
    ensures var e := Committed(r, d, blocks, mem);
            && HeadOk(r, e) && Head(e[r.start]) == blocks
            && Apply(d, CommitWrites(r, d, blocks, mem)) == Recover(r, e)
  {
    AtHead(r, d, blocks, mem);
    CommitFront(r, d, blocks, mem);
    ApplyConcat(d, LogWrites(r, blocks, mem) + [HeadWrite(r, d, blocks)],
                RecoverWrites(r, Committed(r, d, blocks, mem)));
  }

  /** Cut commit() after k writes: all of the transaction shows, or none of it. */
  lemma CommitPrefix(r: Region, d: Image, blocks: seq<int>, mem: Image, k: nat)
    requires Cleared(r, d) && Loggable(r, d, blocks) && |mem| == |d|
    requires k <= |CommitWrites(r, d, blocks, mem)|
    ensures var ws := CommitWrites(r, d, blocks, mem);
            var e := Apply(d, ws[..k]);
            && Shows(r, e, if k <= |blocks| then d else Merge(d, blocks, mem))
            && (k == |ws| ==> Cleared(r, e))
  {
    var ws := CommitWrites(r, d, blocks, mem);
    if k <= |blocks| {
      BeforeHead(r, d, blocks, mem, k);
      assert ws[..k] == LogWrites(r, blocks, mem)[..k];
    } else {
      AtHead(r, d, blocks, mem);
      CommitBack(r, d, blocks, mem, k);
      RecoveryPrefix(r, Committed(r, d, blocks, mem), Merge(d, blocks, mem), k - |blocks| - 1);
    }
  }

  /**
    Crash atomicity. A crash after any k writes of commit(), then any number of
    crashed recoveries, then one that completes, leaves the home blocks exactly
    as before the transaction or exactly with all of it applied, and the latter
    as soon as the non-empty header is on disk.
   */
  lemma CrashAtomicity(r: Region, d: Image, blocks: seq<int>, mem: Image, k: nat, ds: seq<Image>)
    requires Cleared(r, d) && Loggable(r, d, blocks) && |mem| == |d|
    requires k <= |CommitWrites(r, d, blocks, mem)|
    requires CrashedRecoveries(r, ds) && ds[0] == Apply(d, CommitWrites(r, d, blocks, mem)[..k])
    ensures var last := ds[|ds| - 1];
            && Fits(r, last) && HeadOk(r, last)
            && Cleared(r, Recover(r, last))
            && HomeEq(r, Recover(r, last), if k <= |blocks| then d else Merge(d, blocks, mem))
  {
    CommitPrefix(r, d, blocks, mem, k);
    RecoveryIdempotent(r, ds, if k <= |blocks| then d else Merge(d, blocks, mem));
  }

  // The log_write() calls of one operation.

  function Elements(op: seq<nat>): (s: set<nat>) {
    set b | b in op
  }

  /** Every call is made with a block of the reservation to spare. */
  ghost predicate Thrifty(op: seq<nat>) {
    forall j :: 0 <= j < |op| ==> |Elements(op[..j])| < MAXOPBLOCKS
  }

  lemma ThriftyNext(op: seq<nat>, b: nat)
    ensures Elements(op + [b]) == Elements(op) + {b}
    ensures Thrifty(op) && |Elements(op)| < MAXOPBLOCKS ==> Thrifty(op + [b])
  {
    forall j | 0 <= j < |op + [b]|
      ensures (op + [b])[..j] == op[..j]
    {
    }
    assert op[..|op|] == op;
  }
}
