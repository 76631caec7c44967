/** The redo log of log.c: what one commit, or one recovery, does to the disk,
    one block write at a time, and what a crash between any two of those
    writes leaves behind.

    The buffer cache is represented by what it guarantees (module BufferCache):
    a logged block stays in the cache (`pinned`) until its transaction has been
    installed, and every other read returns the contents on disk. */
module Log {
  import opened Blocks

  const MAXOPBLOCKS := 10
  const LOGSIZE := 30

  type Disk = seq<Block>

  /** The log area is [start, start + size): the header block, then the slots. */
  datatype Area = Area(start: nat, size: nat) {
    predicate Contains(b: int) { start <= b < start + size }
    /** Disk block of the log slot for the i-th logged block. */
    function Slot(i: nat): nat { start + 1 + i }
  }

  function Min(a: int, b: int): int { if a < b then a else b }

  /** lh.n can never exceed this (the first check of log_write). */
  function Capacity(g: Area): int { Min(LOGSIZE, g.size - 1) }

  // ---------------------------------------------------------------- header

  /** The block list stored in a header block. */
  function Header(b: Block): (lh: seq<Word>)
    requires GetWord(b, 0) < WORDS
    ensures |lh| == GetWord(b, 0)
    ensures forall i :: 0 <= i < |lh| ==> lh[i] == GetWord(b, i + 1)
  {
    seq(GetWord(b, 0), i requires 0 <= i < GetWord(b, 0) => GetWord(b, i + 1))
  }

  /** The stores `hb->block[i] = lh.block[i]` for i < k; words past them keep their old values. */
  function PutBlocks(b: Block, lh: seq<Word>, k: nat): (r: Block)
    requires k <= |lh| < WORDS
    ensures GetWord(r, 0) == GetWord(b, 0)
    ensures forall i :: 0 <= i < k ==> GetWord(r, i + 1) == lh[i]
  {
    if k == 0 then b else SetWord(PutBlocks(b, lh, k - 1), k, lh[k - 1])
  }

  function PutHeader(b: Block, lh: seq<Word>): (r: Block)
    requires |lh| < WORDS
    ensures GetWord(r, 0) == |lh| && Header(r) == lh
  {
    PutBlocks(SetWord(b, 0, |lh|), lh, |lh|)
  }

  /** First index holding b, or |lh|: the scan at the heart of log_write. */
  function IndexOf(lh: seq<Word>, b: int): (i: nat)
    ensures i <= |lh|
    ensures i < |lh| ==> lh[i] == b
    ensures forall j :: 0 <= j < i ==> lh[j] != b
  {
    if lh == [] then 0 else if lh[0] == b then 0 else 1 + IndexOf(lh[1..], b)
  }

  predicate Distinct(lh: seq<Word>) {
    forall i, j :: 0 <= i < j < |lh| ==> lh[i] != lh[j]
  }

  /** A block that log_write may be given: on the disk and not part of the log. */
  predicate IsHome(g: Area, len: nat, b: int) {
    0 <= b < len && !g.Contains(b)
  }

  predicate Targets(g: Area, len: nat, lh: seq<Word>) {
    && |lh| <= Capacity(g)
    && Distinct(lh)
    && forall i :: 0 <= i < |lh| ==> IsHome(g, len, lh[i])
  }

  /** A disk whose log header can be recovered from; mkfs writes an all-zero one. */
  predicate Formatted(g: Area, d: Disk) {
    && 2 <= g.size && g.start + g.size <= |d| < 0x1_0000_0000
    && GetWord(d[g.start], 0) <= Capacity(g)
    && Targets(g, |d|, Header(d[g.start]))
  }

  function LoggedOnDisk(g: Area, d: Disk): seq<Word>
    requires Formatted(g, d)
  {
    Header(d[g.start])
  }

  /** What block b holds once recovery from disk d has run to its end. */
  function Survivor(g: Area, d: Disk, b: int): Block
    requires Formatted(g, d) && IsHome(g, |d|, b)
  {
    var lh := LoggedOnDisk(g, d);
    var i := IndexOf(lh, b);
    if i < |lh| then d[g.Slot(i)] else d[b]
  }

  // ------------------------------------------------- one block write at a time

  datatype Phase = Idle | WriteLog(k: nat) | WriteHead | Install(k: nat) | ClearHead | Finished

  /** commit() and recover_from_log(): recovery is a commit entered at install_trans
      with the list read from disk and nothing pinned. */
  datatype Committer = Committer(disk: Disk, lh: seq<Word>, pinned: map<Word, Block>, pc: Phase)

  predicate SlotsHold(g: Area, c: Committer, k: nat)
    requires k <= |c.lh| && g.Slot(|c.lh|) <= |c.disk|
  {
    forall i :: 0 <= i < k ==> c.lh[i] in c.pinned && c.disk[g.Slot(i)] == c.pinned[c.lh[i]]
  }

  predicate Installed(g: Area, c: Committer, k: nat)
    requires k <= |c.lh| && Targets(g, |c.disk|, c.lh) && g.Slot(|c.lh|) <= |c.disk|
  {
    forall i :: 0 <= i < k ==> c.disk[c.lh[i]] == c.disk[g.Slot(i)]
  }

  predicate SlotsMatch(g: Area, c: Committer, from: nat)
    requires from <= |c.lh| && PinnedIs(c, from) && g.Slot(|c.lh|) <= |c.disk|
  {
    forall i :: from <= i < |c.lh| ==> c.disk[g.Slot(i)] == c.pinned[c.lh[i]]
  }

  predicate PinnedIs(c: Committer, from: nat)
    requires from <= |c.lh|
  {
    && (forall i :: from <= i < |c.lh| ==> c.lh[i] in c.pinned)
    && (forall b :: b in c.pinned ==> from <= IndexOf(c.lh, b) < |c.lh|)
  }

  /** Every state commit, recovery and crashes reach satisfies this. */
  predicate WellFormed(g: Area, c: Committer) {
    && Formatted(g, c.disk)
    && Targets(g, |c.disk|, c.lh)
    && match c.pc {
      case Idle => LoggedOnDisk(g, c.disk) == [] && PinnedIs(c, 0)
      case WriteLog(k) => LoggedOnDisk(g, c.disk) == [] && PinnedIs(c, 0) && k < |c.lh| && SlotsHold(g, c, k)
      case WriteHead => LoggedOnDisk(g, c.disk) == [] && PinnedIs(c, 0) && 0 < |c.lh| && SlotsHold(g, c, |c.lh|)
      case Install(k) =>
        && k < |c.lh| && LoggedOnDisk(g, c.disk) == c.lh && Installed(g, c, k)
        && (c.pinned == map[] || (PinnedIs(c, k) && SlotsMatch(g, c, k)))
      case ClearHead => LoggedOnDisk(g, c.disk) == c.lh && Installed(g, c, |c.lh|) && c.pinned == map[]
      case Finished => LoggedOnDisk(g, c.disk) == [] && c.lh == [] && c.pinned == map[]
    }
  }

  /** One disk write of commit() or recover_from_log(), and the place it leaves the code at. */
  function Step(g: Area, c: Committer): Committer
    requires WellFormed(g, c)
  {
    match c.pc
    case Idle => c
    case WriteLog(k) =>
      c.(disk := c.disk[g.Slot(k) := c.pinned[c.lh[k]]],
         pc := if k + 1 < |c.lh| then WriteLog(k + 1) else WriteHead)
    case WriteHead =>
      c.(disk := c.disk[g.start := PutHeader(c.disk[g.start], c.lh)], pc := Install(0))
    case Install(k) =>
      c.(disk := c.disk[c.lh[k] := c.disk[g.Slot(k)]],
         pinned := c.pinned - {c.lh[k]},
         pc := if k + 1 < |c.lh| then Install(k + 1) else ClearHead)
    case ClearHead =>
      c.(disk := c.disk[g.start := PutHeader(c.disk[g.start], [])], lh := [], pc := Finished)
    case Finished => c
  }

  /** Reboot: memory is lost, read_head reloads the list, install_trans starts over. */
  function Reboot(g: Area, c: Committer): Committer
    requires WellFormed(g, c)
  {
    var lh := LoggedOnDisk(g, c.disk);
    Committer(c.disk, lh, map[], if lh == [] then ClearHead else Install(0))
  }

  /** What a reader going through the cache sees. */
  function View(c: Committer, b: int): Block
    requires 0 <= b < |c.disk| < 0x1_0000_0000
  {
    if b in c.pinned then c.pinned[b] else c.disk[b]
  }

  lemma IndexOfDistinct(lh: seq<Word>, i: nat)
    requires Distinct(lh) && i < |lh|
    ensures IndexOf(lh, lh[i]) == i
  {
  }

  lemma StepWriteLog(g: Area, c: Committer)
    requires WellFormed(g, c) && c.pc.WriteLog?
    ensures WellFormed(g, Step(g, c))
    ensures forall b | IsHome(g, |c.disk|, b) ::
              Survivor(g, Step(g, c).disk, b) == Survivor(g, c.disk, b) && View(Step(g, c), b) == View(c, b)
  {
    hide GetWord, Header, PutHeader, IndexOf;
  }

  /** write_head: the header block changes and nothing else. */
  lemma HeadWrite(g: Area, d: Disk, lh: seq<Word>, d': Disk)
    requires Formatted(g, d) && Targets(g, |d|, lh)
    requires d' == d[g.start := PutHeader(d[g.start], lh)]
    ensures Formatted(g, d') && LoggedOnDisk(g, d') == lh
    ensures forall b | 0 <= b < |d| && b != g.start :: d'[b] == d[b]
  {
    hide GetWord, Header, PutHeader, IndexOf;
    assert d'[g.start] == PutHeader(d[g.start], lh);
  }

  lemma StepWriteHead(g: Area, c: Committer)
    requires WellFormed(g, c) && c.pc.WriteHead?
    ensures WellFormed(g, Step(g, c))
    ensures forall b | IsHome(g, |c.disk|, b) ::
              Survivor(g, Step(g, c).disk, b) == View(c, b) && View(Step(g, c), b) == View(c, b)
  {
    hide GetWord, Header, PutHeader, IndexOf;
    HeadWrite(g, c.disk, c.lh, Step(g, c).disk);
  }

  /** Overwriting a home block leaves the log area alone. */
  lemma HomeWriteKeepsLog(g: Area, d: Disk, b: int, v: Block)
    requires Formatted(g, d) && IsHome(g, |d|, b)
    ensures Formatted(g, d[b := v]) && LoggedOnDisk(g, d[b := v]) == LoggedOnDisk(g, d)
    ensures forall i: nat | i < |LoggedOnDisk(g, d)| :: d[b := v][g.Slot(i)] == d[g.Slot(i)]
  {
    hide GetWord, Header, PutHeader, IndexOf;
    assert d[b := v][g.start] == d[g.start];
  }

  lemma InstallDisk(g: Area, c: Committer, k: nat, c': Committer)
    requires Formatted(g, c.disk) && Targets(g, |c.disk|, c.lh)
    requires k < |c.lh| && LoggedOnDisk(g, c.disk) == c.lh && Installed(g, c, k)
    requires c'.disk == c.disk[c.lh[k] := c.disk[g.Slot(k)]] && c'.lh == c.lh
    ensures Formatted(g, c'.disk) && LoggedOnDisk(g, c'.disk) == c.lh && Installed(g, c', k + 1)
  {
    hide GetWord, Header, IndexOf;
    HomeWriteKeepsLog(g, c.disk, c.lh[k], c.disk[g.Slot(k)]);
    forall i | 0 <= i < k ensures c'.disk[c.lh[i]] == c'.disk[g.Slot(i)] {
      assert c.lh[i] != c.lh[k];
    }
  }

  lemma InstallPinned(g: Area, c: Committer, k: nat, c': Committer)
    requires Formatted(g, c.disk) && Targets(g, |c.disk|, c.lh)
    requires k < |c.lh| && PinnedIs(c, k) && SlotsMatch(g, c, k)
    requires c'.disk == c.disk[c.lh[k] := c.disk[g.Slot(k)]] && c'.lh == c.lh
    requires c'.pinned == c.pinned - {c.lh[k]}
    ensures PinnedIs(c', k + 1) && SlotsMatch(g, c', k + 1)
    ensures k + 1 == |c.lh| ==> c'.pinned == map[]
  {
    hide GetWord, Header, IndexOf;
    PinnedShrinks(c, k, c');
    forall i | k < i < |c.lh| ensures c'.disk[g.Slot(i)] == c'.pinned[c.lh[i]] {
      assert c.lh[i] != c.lh[k];
    }
  }

  lemma StepInstall(g: Area, c: Committer)
    requires WellFormed(g, c) && c.pc.Install?
    ensures WellFormed(g, Step(g, c))
  {
    StepShape(g, c);
    hide Formatted, Targets, LoggedOnDisk, Installed, PinnedIs, SlotsMatch;
    var k := c.pc.k;
    var c' := Step(g, c);
    InstallDisk(g, c, k, c');
    if c.pinned == map[] {
      assert c'.pinned == map[];
    } else {
      InstallPinned(g, c, k, c');
    }
  }

  lemma PinnedShrinks(c: Committer, k: nat, c': Committer)
    requires k < |c.lh| && Distinct(c.lh) && PinnedIs(c, k)
    requires c'.lh == c.lh && c'.pinned == c.pinned - {c.lh[k]}
    ensures PinnedIs(c', k + 1)
    ensures k + 1 == |c.lh| ==> c'.pinned == map[]
  {
    hide IndexOf;
    IndexOfDistinct(c.lh, k);
    forall b | b in c'.pinned ensures k + 1 <= IndexOf(c.lh, b) < |c.lh| {
      assert b in c.pinned && b != c.lh[k];
    }
    assert k + 1 == |c.lh| ==> forall b :: b !in c'.pinned;
  }

  lemma StepInstallOutcome(g: Area, c: Committer, b: int)
    requires WellFormed(g, c) && c.pc.Install? && IsHome(g, |c.disk|, b)
    requires WellFormed(g, Step(g, c))
    ensures Survivor(g, Step(g, c).disk, b) == Survivor(g, c.disk, b)
    ensures c.pinned != map[] ==> View(Step(g, c), b) == View(c, b)
  {
    hide GetWord, Header, PutHeader, IndexOf;
    var k := c.pc.k;
    HomeWriteKeepsLog(g, c.disk, c.lh[k], c.disk[g.Slot(k)]);
    IndexOfDistinct(c.lh, k);
    assert b != c.lh[k] ==> Step(g, c).disk[b] == c.disk[b];
  }

  /** After install_trans the home blocks already hold what the log holds. */
  lemma InstalledSurvives(g: Area, c: Committer, b: int)
    requires WellFormed(g, c) && c.pc.ClearHead? && IsHome(g, |c.disk|, b)
    ensures Survivor(g, c.disk, b) == c.disk[b]
  {
    hide GetWord, Header, PutHeader, IndexOf;
    var i := IndexOf(c.lh, b);
    if i < |c.lh| {
      assert c.disk[c.lh[i]] == c.disk[g.Slot(i)];
    }
  }

  lemma StepClearHead(g: Area, c: Committer)
    requires WellFormed(g, c) && c.pc.ClearHead?
    ensures WellFormed(g, Step(g, c))
  {
    hide GetWord, Header, PutHeader, IndexOf;
    HeadWrite(g, c.disk, [], Step(g, c).disk);
  }

  lemma StepClearHeadOutcome(g: Area, c: Committer, b: int)
    requires WellFormed(g, c) && c.pc.ClearHead? && IsHome(g, |c.disk|, b)
    ensures WellFormed(g, Step(g, c))
    ensures Survivor(g, Step(g, c).disk, b) == Survivor(g, c.disk, b)
    ensures View(Step(g, c), b) == View(c, b)
    ensures Step(g, c).disk[b] == Survivor(g, c.disk, b)
  {
    hide GetWord, Header, PutHeader, IndexOf;
    HeadWrite(g, c.disk, [], Step(g, c).disk);
    InstalledSurvives(g, c, b);
  }

  lemma StepAtRest(g: Area, c: Committer)
    requires WellFormed(g, c) && (c.pc.Idle? || c.pc.Finished?)
    ensures Step(g, c) == c
  {
  }

  /** One block write: only the write of a non-empty header changes what would survive a crash. */
  lemma StepOutcome(g: Area, c: Committer)
    requires WellFormed(g, c)
    ensures WellFormed(g, Step(g, c)) && |Step(g, c).disk| == |c.disk|
    ensures forall b | IsHome(g, |c.disk|, b) ::
              Survivor(g, Step(g, c).disk, b) == if c.pc.WriteHead? then View(c, b) else Survivor(g, c.disk, b)
  {
    StepShape(g, c);
    hide WellFormed, Survivor, View, Formatted, Step;
    match c.pc
    case Idle => StepAtRest(g, c);
    case WriteLog(_) => StepWriteLog(g, c);
    case WriteHead => StepWriteHead(g, c);
    case Install(_) =>
      StepInstall(g, c);
      forall b | IsHome(g, |c.disk|, b) ensures Survivor(g, Step(g, c).disk, b) == Survivor(g, c.disk, b) {
        StepInstallOutcome(g, c, b);
      }
    case ClearHead =>
      StepClearHead(g, c);
      forall b | IsHome(g, |c.disk|, b) ensures Survivor(g, Step(g, c).disk, b) == Survivor(g, c.disk, b) {
        StepClearHeadOutcome(g, c, b);
      }
    case Finished => StepAtRest(g, c);
  }

  lemma StepShape(g: Area, c: Committer)
    requires WellFormed(g, c)
    ensures |Step(g, c).disk| == |c.disk| && Formatted(g, c.disk)
    ensures g.start + g.size <= |c.disk| < 0x1_0000_0000
  {
  }

  lemma RebootWellFormed(g: Area, c: Committer)
    requires WellFormed(g, c)
    ensures WellFormed(g, Reboot(g, c))
  {
    hide GetWord, Header, IndexOf;
  }

  // --------------------------------------------------- runs with crashes

  datatype Event = BlockWrite | Crash

  function Next(g: Area, c: Committer, e: Event): (c': Committer)
    requires WellFormed(g, c)
    ensures WellFormed(g, c') && |c'.disk| == |c.disk|
  {
    match e
    case BlockWrite => StepOutcome(g, c); Step(g, c)
    case Crash => RebootWellFormed(g, c); Reboot(g, c)
  }

  /** The machine after the given events: block writes of whatever code is running
      (commit first, recovery after a crash), and crashes anywhere between them. */
  function Run(g: Area, c: Committer, es: seq<Event>): (c': Committer)
    requires WellFormed(g, c)
    ensures WellFormed(g, c') && |c'.disk| == |c.disk|
  {
    if es == [] then c else Next(g, Run(g, c, es[..|es| - 1]), es[|es| - 1])
  }

  /** Some moment of the run had a non-empty header on disk. */
  predicate HeaderReached(g: Area, c: Committer, es: seq<Event>)
    requires WellFormed(g, c)
  {
    || LoggedOnDisk(g, Run(g, c, es).disk) != []
    || (es != [] && HeaderReached(g, c, es[..|es| - 1]))
  }

  /** While the header is still empty the commit has not passed write_head, and its
      memory is intact unless a crash has abandoned it. */
  predicate Undecided(c0: Committer, c: Committer)
    requires |c.disk| == |c0.disk|
  {
    match c.pc
    case WriteLog(_) => c.lh == c0.lh && c.pinned == c0.pinned
    case WriteHead => c.lh == c0.lh && c.pinned == c0.pinned
    case ClearHead => c.lh == []
    case Finished => true
    case _ => false
  }

  predicate AtomicAt(g: Area, c0: Committer, es: seq<Event>, b: int)
    requires WellFormed(g, c0) && IsHome(g, |c0.disk|, b)
  {
    Survivor(g, Run(g, c0, es).disk, b) == if HeaderReached(g, c0, es) then View(c0, b) else c0.disk[b]
  }

  /** What CrashAtomicity says of one run. */
  ghost predicate Atomic(g: Area, c0: Committer, es: seq<Event>)
    requires WellFormed(g, c0)
  {
    var c := Run(g, c0, es);
    && (forall b | IsHome(g, |c0.disk|, b) :: AtomicAt(g, c0, es, b))
    && (if HeaderReached(g, c0, es) then c.pc.Install? || c.pc.ClearHead? || c.pc.Finished?
        else Undecided(c0, c))
  }

  lemma RunNext(g: Area, c0: Committer, es: seq<Event>, e: Event)
    requires WellFormed(g, c0)
    ensures Run(g, c0, es + [e]) == Next(g, Run(g, c0, es), e)
    ensures HeaderReached(g, c0, es + [e])
        <==> HeaderReached(g, c0, es) || LoggedOnDisk(g, Run(g, c0, es + [e]).disk) != []
  {
    assert (es + [e])[..|es + [e]| - 1] == es;
  }

  lemma AtomicNext(g: Area, c0: Committer, es: seq<Event>, e: Event)
    requires WellFormed(g, c0) && Atomic(g, c0, es)
    ensures Atomic(g, c0, es + [e])
  {
    var c := Run(g, c0, es);
    var c' := Run(g, c0, es + [e]);
    RunNext(g, c0, es, e);
    PhaseOfHeader(g, c');
    NextPhase(g, c0, c, e);
    forall b | IsHome(g, |c0.disk|, b) ensures AtomicAt(g, c0, es + [e], b) {
      hide WellFormed, Formatted, Survivor, View, Run, Undecided, Step;
      NextSurvivor(g, c, e, b);
      ViewUndecided(g, c0, c, b);
      assert AtomicAt(g, c0, es, b);
    }
  }

  lemma NextSurvivor(g: Area, c: Committer, e: Event, b: int)
    requires WellFormed(g, c) && IsHome(g, |c.disk|, b)
    ensures Formatted(g, Next(g, c, e).disk)
    ensures Survivor(g, Next(g, c, e).disk, b)
            == if e.BlockWrite? && c.pc.WriteHead? then View(c, b) else Survivor(g, c.disk, b)
  {
    hide Survivor, Formatted, LoggedOnDisk;
    StepOutcome(g, c);
  }

  lemma ViewUndecided(g: Area, c0: Committer, c: Committer, b: int)
    requires WellFormed(g, c) && |c.disk| == |c0.disk| && IsHome(g, |c.disk|, b)
    ensures Undecided(c0, c) && c.pc.WriteHead? && Survivor(g, c.disk, b) == c0.disk[b]
        ==> View(c, b) == View(c0, b)
  {
    hide IndexOf, GetWord;
  }

  lemma NextPhase(g: Area, c0: Committer, c: Committer, e: Event)
    requires WellFormed(g, c) && |c.disk| == |c0.disk|
    ensures var c' := Next(g, c, e);
            && (Undecided(c0, c) ==> if e.BlockWrite? && c.pc.WriteHead? then c'.pc.Install? else Undecided(c0, c'))
            && (c.pc.Install? || c.pc.ClearHead? || c.pc.Finished? ==>
                c'.pc.Install? || c'.pc.ClearHead?
                || c'.pc.Finished?)
  {
    PhaseOfHeader(g, c);
  }

  /** Which places of the code have a non-empty header on disk. */
  lemma PhaseOfHeader(g: Area, c: Committer)
    requires WellFormed(g, c)
    ensures LoggedOnDisk(g, c.disk) != [] ==> c.pc.Install? || c.pc.ClearHead?
    ensures c.pc.Install? ==> LoggedOnDisk(g, c.disk) != []
    ensures c.pc.ClearHead? ==> LoggedOnDisk(g, c.disk) == c.lh
  {
  }

  /** Crash atomicity. Start a commit of any transaction, let any number of crashes
      happen between any two block writes of the commit or of the recoveries that
      follow: what recovery restores at every home block is the contents before the
      commit, or all of the transaction, and the latter exactly when a non-empty
      header reached the disk. */
  lemma {:induction false} CrashAtomicity(g: Area, c0: Committer, es: seq<Event>)
    requires WellFormed(g, c0) && c0.pc == WriteLog(0)
    ensures forall b | IsHome(g, |c0.disk|, b) ::
              Survivor(g, Run(g, c0, es).disk, b) == if HeaderReached(g, c0, es) then View(c0, b) else c0.disk[b]
    ensures Atomic(g, c0, es)
  {
    hide GetWord, Header;
    if es == [] {
    } else {
      var es0 := es[..|es| - 1];
      CrashAtomicity(g, c0, es0);
      AtomicNext(g, c0, es0, es[|es| - 1]);
      assert es0 + [es[|es| - 1]] == es;
    }
  }

  /** Once a run comes to rest after recovery, the home blocks themselves hold the outcome. */
  lemma RecoveryCompletes(g: Area, c0: Committer, es: seq<Event>)
    requires WellFormed(g, c0) && c0.pc == WriteLog(0)
    requires Run(g, c0, es).pc == Finished
    ensures forall b | IsHome(g, |c0.disk|, b) ::
              Run(g, c0, es).disk[b] == if HeaderReached(g, c0, es) then View(c0, b) else c0.disk[b]
  {
    CrashAtomicity(g, c0, es);
  }
}
