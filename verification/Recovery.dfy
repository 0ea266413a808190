/**
 The on-disk protocol of the redo log: the exact block writes of `commit` and of
 `recover_from_log`, and what a crash between any two of them leaves behind.
 */
module Recovery {
  import opened Basics
  import opened BlockStore

  const LOGSIZE: nat := 30

  /** `start` holds the header; the log blocks follow it, up to `size` blocks in all. */
  datatype Layout = Layout(start: nat, size: nat)

  predicate InLog(l: Layout, b: nat) {
    l.start <= b < l.start + l.size
  }

  predicate Fits(l: Layout, disksize: nat) {
    0 < l.size && l.start + l.size <= disksize
  }

  /** Entries that the in-memory log can hold: distinct home blocks. */
  predicate HomeEntries(l: Layout, disksize: nat, lh: seq<nat>) {
    && |lh| <= LOGSIZE
    && NoRepeat(lh)
    && forall i :: 0 <= i < |lh| ==> lh[i] < disksize && !InLog(l, lh[i])
  }

  /** Entries whose log blocks are also in the log area. */
  predicate GoodEntries(l: Layout, disksize: nat, lh: seq<nat>) {
    HomeEntries(l, disksize, lh) && |lh| < l.size
  }

  /** Entries whose log blocks are at least on the disk. */
  predicate BlocksExist(l: Layout, disksize: nat, lh: seq<nat>) {
    HomeEntries(l, disksize, lh) && l.start + |lh| < disksize
  }

  /** The header block: word 0 is n, the next n words are block numbers. */
  function Entries(h: Block): (lh: seq<nat>) {
    if h[0] <= LOGSIZE then h[1..1 + h[0]] else []
  }

  /** `write_head` overwrites only the words it needs. */
  function Encode(prior: Block, lh: seq<nat>): (h: Block)
    requires |lh| <= LOGSIZE
  {
    [|lh|] + lh + prior[1 + |lh|..]
  }

  lemma EncodeRoundTrip(prior: Block, lh: seq<nat>)
    requires |lh| <= LOGSIZE
    ensures Entries(Encode(prior, lh)) == lh
    ensures Encode(prior, lh)[0] == |lh| && forall i :: 0 <= i < |lh| ==> Encode(prior, lh)[1 + i] == lh[i]
    ensures forall i :: |lh| < i < 128 ==> Encode(prior, lh)[i] == prior[i]
  {
    var h := Encode(prior, lh);
    assert h[1..1 + h[0]] == lh;
  }

  /** A disk whose header describes a log that can be installed. */
  predicate GoodDisk(l: Layout, d: Disk) {
    && Fits(l, |d|)
    && d[l.start][0] <= LOGSIZE
    && GoodEntries(l, |d|, Entries(d[l.start]))
  }

  predicate EmptyLog(l: Layout, d: Disk) {
    Fits(l, |d|) && d[l.start][0] == 0
  }

  /** Two disks that agree on every block outside the log area. */
  predicate SameHome(l: Layout, d: Disk, e: Disk) {
    |d| == |e| && forall b {:trigger d[b]} {:trigger e[b]} :: 0 <= b < |d| && !InLog(l, b) ==> d[b] == e[b]
  }

  // ------------------------------------------------------------------
  // The block writes, in order

  /** `write_log`: the first k logged blocks, copied from the cache to the log. */
  function LogWrites(l: Layout, s: Store, lh: seq<nat>, k: nat): (ws: seq<Write>)
    requires k <= |lh| && HomeEntries(l, |s.disk|, lh)
    ensures |ws| == k
  {
    if k == 0 then [] else LogWrites(l, s, lh, k - 1) + [Write(l.start + k, s.Read(lh[k - 1]))]
  }

  /** `install_trans`: the first k log blocks, copied from the log to their homes. */
  function InstallWrites(l: Layout, d: Disk, lh: seq<nat>, k: nat): (ws: seq<Write>)
    requires k <= |lh| && BlocksExist(l, |d|, lh)
    ensures |ws| == k
  {
    if k == 0 then [] else InstallWrites(l, d, lh, k - 1) + [Write(lh[k - 1], d[l.start + k])]
  }

  /** `commit`: log blocks, header, home blocks, empty header; nothing for an empty transaction. */
  function CommitWrites(l: Layout, s: Store, lh: seq<nat>): (ws: seq<Write>)
    requires Fits(l, |s.disk|) && BlocksExist(l, |s.disk|, lh)
    ensures |ws| == if lh == [] then 0 else 2 * |lh| + 2
  {
    if lh == [] then [] else
      var logged := LogWrites(l, s, lh, |lh|);
      var d := Apply(s.disk, logged);
      var header := Write(l.start, Encode(d[l.start], lh));
      logged + [header] + InstallWrites(l, d, lh, |lh|) + [Write(l.start, Encode(header.data, []))]
  }

  /** `recover_from_log`: install what the header lists, then clear the header. */
  function RecoverWrites(l: Layout, d: Disk): (ws: seq<Write>)
    requires GoodDisk(l, d)
    ensures |ws| == |Entries(d[l.start])| + 1
  {
    var lh := Entries(d[l.start]);
    InstallWrites(l, d, lh, |lh|) + [Write(l.start, Encode(d[l.start], []))]
  }

  // ------------------------------------------------------------------
  // The disks that these writes produce

  /** d with the first k log blocks copied to their homes. */
  function Installed(l: Layout, d: Disk, lh: seq<nat>, k: nat): (r: Disk)
    requires k <= |lh| && GoodEntries(l, |d|, lh) && Fits(l, |d|)
    ensures |r| == |d|
  {
    if k == 0 then d else Installed(l, d, lh, k - 1)[lh[k - 1] := d[l.start + k]]
  }

  /** The disk of s with the first k logged blocks copied to the log. */
  function Logged(l: Layout, s: Store, lh: seq<nat>, k: nat): (r: Disk)
    requires k <= |lh| && BlocksExist(l, |s.disk|, lh)
    ensures |r| == |s.disk|
  {
    if k == 0 then s.disk else Logged(l, s, lh, k - 1)[l.start + k := s.Read(lh[k - 1])]
  }

  /** The disk after recovery. */
  function Recover(l: Layout, d: Disk): (r: Disk)
    requires GoodDisk(l, d)
    ensures |r| == |d|
  {
    var lh := Entries(d[l.start]);
    Installed(l, d, lh, |lh|)[l.start := Encode(d[l.start], [])]
  }

  /** The disk after the first k writes of recovery. */
  function RecoverState(l: Layout, d: Disk, k: nat): (r: Disk)
    requires GoodDisk(l, d)
    ensures |r| == |d|
  {
    var lh := Entries(d[l.start]);
    if k <= |lh| then Installed(l, d, lh, k) else Recover(l, d)
  }

  /** The disk once the header of a commit is written. */
  function Committed(l: Layout, s: Store, lh: seq<nat>): (r: Disk)
    requires Fits(l, |s.disk|) && GoodEntries(l, |s.disk|, lh)
    ensures |r| == |s.disk|
  {
    var d := Logged(l, s, lh, |lh|);
    d[l.start := Encode(d[l.start], lh)]
  }

  lemma {:induction false} InstallApplies(l: Layout, d: Disk, lh: seq<nat>, k: nat)
    requires k <= |lh| && GoodEntries(l, |d|, lh) && Fits(l, |d|)
    ensures Apply(d, InstallWrites(l, d, lh, k)) == Installed(l, d, lh, k)
  {
    if k > 0 {
      InstallApplies(l, d, lh, k - 1);
      ApplySnoc(d, InstallWrites(l, d, lh, k - 1), Write(lh[k - 1], d[l.start + k]));
    }
  }

  lemma {:induction false} LogApplies(l: Layout, s: Store, lh: seq<nat>, k: nat)
    requires k <= |lh| && BlocksExist(l, |s.disk|, lh)
    ensures Apply(s.disk, LogWrites(l, s, lh, k)) == Logged(l, s, lh, k)
  {
    if k > 0 {
      LogApplies(l, s, lh, k - 1);
      ApplySnoc(s.disk, LogWrites(l, s, lh, k - 1), Write(l.start + k, s.Read(lh[k - 1])));
    }
  }

  lemma {:induction false} InstallPrefix(l: Layout, d: Disk, lh: seq<nat>, n: nat, k: nat)
    requires k <= n <= |lh| && GoodEntries(l, |d|, lh) && Fits(l, |d|)
    ensures InstallWrites(l, d, lh, n)[..k] == InstallWrites(l, d, lh, k)
  {
    if k < n {
      InstallPrefix(l, d, lh, n - 1, k);
      assert InstallWrites(l, d, lh, n)[..k] == InstallWrites(l, d, lh, n - 1)[..k];
    }
  }

  lemma {:induction false} LogPrefix(l: Layout, s: Store, lh: seq<nat>, n: nat, k: nat)
    requires k <= n <= |lh| && GoodEntries(l, |s.disk|, lh)
    ensures LogWrites(l, s, lh, n)[..k] == LogWrites(l, s, lh, k)
  {
    if k < n {
      LogPrefix(l, s, lh, n - 1, k);
      assert LogWrites(l, s, lh, n)[..k] == LogWrites(l, s, lh, n - 1)[..k];
    }
  }

  lemma PrefixOfConcat<T>(a: seq<T>, b: seq<T>, k: nat)
    requires k <= |a| + |b|
    ensures (a + b)[..k] == if k <= |a| then a[..k] else a + b[..k - |a|]
  {
  }

  /** The first k writes of recovery produce the state of that name. */
  lemma RecoverApplies(l: Layout, d: Disk, k: nat)
    requires GoodDisk(l, d) && k <= |RecoverWrites(l, d)|
    ensures Apply(d, RecoverWrites(l, d)[..k]) == RecoverState(l, d, k)
  {
    var lh := Entries(d[l.start]);
    var ws, w := InstallWrites(l, d, lh, |lh|), Write(l.start, Encode(d[l.start], []));
    PrefixOfConcat(ws, [w], k);
    if k <= |lh| {
      InstallPrefix(l, d, lh, |lh|, k);
      InstallApplies(l, d, lh, k);
    } else {
      assert [w][..1] == [w];
      ApplySnoc(d, ws, w);
      InstallApplies(l, d, lh, |lh|);
    }
  }

  // ------------------------------------------------------------------
  // What recovery makes of a disk, block by block

  /** The last of the first k entries that is b; k if there is none. */
  function Index(lh: seq<nat>, k: nat, b: nat): (i: nat)
    requires k <= |lh|
    ensures i <= k
    ensures i < k ==> lh[i] == b
    ensures i == k ==> forall j :: 0 <= j < k ==> lh[j] != b
  {
    if k == 0 then 0
    else if lh[k - 1] == b then k - 1
    else
      var i := Index(lh, k - 1, b);
      if i < k - 1 then i else k
  }

  /** The content that recovery gives home block b: the log block of its entry, if it has one. */
  function Logical(l: Layout, d: Disk, b: nat): (v: Block)
    requires GoodDisk(l, d) && b < |d|
  {
    var lh := Entries(d[l.start]);
    var i := Index(lh, |lh|, b);
    if i < |lh| then d[l.start + 1 + i] else d[b]
  }

  /** The states of two disks are the same after recovery. */
  predicate SameLogical(l: Layout, d: Disk, e: Disk) {
    && GoodDisk(l, d) && GoodDisk(l, e) && |d| == |e|
    && forall b {:trigger Logical(l, d, b)} {:trigger Logical(l, e, b)} ::
         0 <= b < |d| && !InLog(l, b) ==> Logical(l, d, b) == Logical(l, e, b)
  }

  lemma {:induction false} InstalledAt(l: Layout, d: Disk, lh: seq<nat>, k: nat, b: nat)
    requires k <= |lh| && GoodEntries(l, |d|, lh) && Fits(l, |d|) && b < |d|
    ensures Installed(l, d, lh, k)[b] == if Index(lh, k, b) < k then d[l.start + 1 + Index(lh, k, b)] else d[b]
  {
    if k > 0 {
      InstalledAt(l, d, lh, k - 1, b);
    }
  }

  /** Entries are home blocks, so installing leaves the log area alone. */
  lemma InstalledInLog(l: Layout, d: Disk, lh: seq<nat>, k: nat, b: nat)
    requires k <= |lh| && GoodEntries(l, |d|, lh) && Fits(l, |d|) && b < |d| && InLog(l, b)
    ensures Installed(l, d, lh, k)[b] == d[b]
  {
    InstalledAt(l, d, lh, k, b);
  }

  lemma {:induction false} LoggedAt(l: Layout, s: Store, lh: seq<nat>, k: nat, b: nat)
    requires k <= |lh| && BlocksExist(l, |s.disk|, lh) && b < |s.disk|
    ensures Logged(l, s, lh, k)[b] == if l.start < b <= l.start + k then s.Read(lh[b - l.start - 1]) else s.disk[b]
  {
    if k > 0 {
      LoggedAt(l, s, lh, k - 1, b);
    }
  }

  lemma InstalledLogical(l: Layout, d: Disk, lh: seq<nat>, k: nat, e: Disk, b: nat)
    requires GoodDisk(l, d) && lh == Entries(d[l.start]) && k <= |lh| && b < |d| && !InLog(l, b)
    requires e == Installed(l, d, lh, k) && GoodDisk(l, e)
    ensures Logical(l, e, b) == Logical(l, d, b)
  {
    InstalledInLog(l, d, lh, k, l.start);
    var i := Index(lh, |lh|, b);
    if i < |lh| {
      InstalledInLog(l, d, lh, k, l.start + 1 + i);
    } else {
      NoIndex(lh, k, b);
      InstalledAt(l, d, lh, k, b);
    }
  }

  lemma NoIndex(lh: seq<nat>, k: nat, b: nat)
    requires k <= |lh| && Index(lh, |lh|, b) == |lh|
    ensures Index(lh, k, b) == k
  {
  }

  /** Recovery produces, home block by home block, the logical content. */
  lemma RecoverAt(l: Layout, d: Disk, b: nat)
    requires GoodDisk(l, d) && b < |d| && !InLog(l, b)
    ensures Recover(l, d)[b] == Logical(l, d, b)
  {
    var lh := Entries(d[l.start]);
    InstalledAt(l, d, lh, |lh|, b);
  }

  lemma RecoverEmpties(l: Layout, d: Disk)
    requires GoodDisk(l, d)
    ensures EmptyLog(l, Recover(l, d))
  {
  }

  lemma EmptyLogical(l: Layout, d: Disk, b: nat)
    requires EmptyLog(l, d) && b < |d|
    ensures GoodDisk(l, d) && Logical(l, d, b) == d[b]
  {
    assert Entries(d[l.start]) == [];
  }

  /** A crash after any number of recovery's writes leaves a disk that recovers to the same state. */
  lemma CrashInRecovery(l: Layout, d: Disk, k: nat)
    requires GoodDisk(l, d)
    ensures SameLogical(l, d, RecoverState(l, d, k))
  {
    var e := RecoverState(l, d, k);
    if k > |Entries(d[l.start])| {
      RecoverEmpties(l, d);
      EmptyLogical(l, e, l.start);
    } else {
      InstalledLogicalGood(l, d, k);
    }
    forall b | 0 <= b < |d| && !InLog(l, b) ensures Logical(l, d, b) == Logical(l, e, b) {
      if k > |Entries(d[l.start])| {
        RecoverAt(l, d, b);
        EmptyLogical(l, e, b);
      } else {
        InstalledLogical(l, d, Entries(d[l.start]), k, Installed(l, d, Entries(d[l.start]), k), b);
      }
    }
  }

  lemma InstalledLogicalGood(l: Layout, d: Disk, k: nat)
    requires GoodDisk(l, d) && k <= |Entries(d[l.start])|
    ensures GoodDisk(l, Installed(l, d, Entries(d[l.start]), k))
  {
    InstalledInLog(l, d, Entries(d[l.start]), k, l.start);
  }

  // ------------------------------------------------------------------
  // Crash atomicity

  /** The home blocks before and after a transaction. */
  predicate OldHome(l: Layout, s: Store, d: Disk) {
    SameHome(l, s.disk, d)
  }

  predicate NewHome(l: Layout, s: Store, d: Disk) {
    && |s.disk| == |d|
    && forall b {:trigger d[b]} {:trigger s.Read(b)} :: 0 <= b < |d| && !InLog(l, b) ==> d[b] == s.Read(b)
  }

  /** Everything recovery would produce from d is the pinned content of s. */
  predicate LogicallyNew(l: Layout, s: Store, d: Disk) {
    && GoodDisk(l, d) && |d| == |s.disk|
    && forall b {:trigger Logical(l, d, b)} :: 0 <= b < |d| && !InLog(l, b) ==> Logical(l, d, b) == s.Read(b)
  }

  predicate LogicallyOld(l: Layout, s: Store, d: Disk) {
    && GoodDisk(l, d) && |d| == |s.disk|
    && forall b {:trigger Logical(l, d, b)} :: 0 <= b < |d| && !InLog(l, b) ==> Logical(l, d, b) == s.disk[b]
  }

  /** Exactly the listed blocks are pinned. */
  ghost predicate Lists(l: Layout, s: Store, lh: seq<nat>) {
    && s.Valid()
    && HomeEntries(l, |s.disk|, lh)
    && forall b: nat :: b in s.pinned <==> b in lh
  }

  /** Besides, the log on disk is empty. */
  ghost predicate Listed(l: Layout, s: Store, lh: seq<nat>) {
    Lists(l, s, lh) && EmptyLog(l, s.disk)
  }

  /** A transaction ready to commit: its log blocks are also in the log area. */
  ghost predicate Ready(l: Layout, s: Store, lh: seq<nat>) {
    Listed(l, s, lh) && |lh| < l.size
  }

  /** The disk after the first k writes of a commit. */
  function CommitState(l: Layout, s: Store, lh: seq<nat>, k: nat): (r: Disk)
    requires Fits(l, |s.disk|) && GoodEntries(l, |s.disk|, lh) && (k > |lh| ==> GoodDisk(l, Committed(l, s, lh)))
    ensures |r| == |s.disk|
  {
    if k <= |lh| then Logged(l, s, lh, k) else RecoverState(l, Committed(l, s, lh), k - |lh| - 1)
  }

  lemma CommittedHeader(l: Layout, s: Store, lh: seq<nat>)
    requires Ready(l, s, lh)
    ensures GoodDisk(l, Committed(l, s, lh)) && Entries(Committed(l, s, lh)[l.start]) == lh
  {
    EncodeRoundTrip(Logged(l, s, lh, |lh|)[l.start], lh);
  }

  /** The writes of a commit: the log blocks, the header, and then those of a recovery that starts there. */
  lemma CommitIsLogThenRecover(l: Layout, s: Store, lh: seq<nat>)
    requires Ready(l, s, lh) && lh != []
    ensures GoodDisk(l, Committed(l, s, lh))
    ensures |RecoverWrites(l, Committed(l, s, lh))| == |lh| + 1
    ensures CommitWrites(l, s, lh) ==
            LogWrites(l, s, lh, |lh|) + [Write(l.start, Committed(l, s, lh)[l.start])] +
            RecoverWrites(l, Committed(l, s, lh))
  {
    var d, e := Logged(l, s, lh, |lh|), Committed(l, s, lh);
    CommittedHeader(l, s, lh);
    LogApplies(l, s, lh, |lh|);
    InstallReadsLogOnly(l, d, e, lh, |lh|);
    Regroup(LogWrites(l, s, lh, |lh|) + [Write(l.start, e[l.start])], InstallWrites(l, e, lh, |lh|),
            [Write(l.start, Encode(e[l.start], []))]);
  }

  lemma {:induction false} InstallReadsLogOnly(l: Layout, d: Disk, e: Disk, lh: seq<nat>, k: nat)
    requires k <= |lh| && GoodEntries(l, |d|, lh) && Fits(l, |d|) && |d| == |e|
    requires forall b :: l.start < b < |d| ==> d[b] == e[b]
    ensures InstallWrites(l, d, lh, k) == InstallWrites(l, e, lh, k)
  {
    if k > 0 {
      InstallReadsLogOnly(l, d, e, lh, k - 1);
    }
  }

  lemma CommittedState(l: Layout, s: Store, lh: seq<nat>)
    requires Fits(l, |s.disk|) && GoodEntries(l, |s.disk|, lh)
    ensures var e := Committed(l, s, lh);
            Apply(s.disk, LogWrites(l, s, lh, |lh|) + [Write(l.start, e[l.start])]) == e
  {
    LogApplies(l, s, lh, |lh|);
    ApplySnoc(s.disk, LogWrites(l, s, lh, |lh|), Write(l.start, Committed(l, s, lh)[l.start]));
  }

  /** The first k writes of a commit produce the state of that name. */
  lemma CommitApplies(l: Layout, s: Store, lh: seq<nat>, k: nat)
    requires Ready(l, s, lh) && k <= |CommitWrites(l, s, lh)|
    ensures GoodDisk(l, Committed(l, s, lh))
    ensures Apply(s.disk, CommitWrites(l, s, lh)[..k]) == CommitState(l, s, lh, k)
  {
    CommittedHeader(l, s, lh);
    if lh != [] {
      CommitPrefix(l, s, lh, k);
      if k <= |lh| {
        LogApplies(l, s, lh, k);
      } else {
        RecoverPart(l, s, lh, k - |lh| - 1);
      }
    }
  }

  /** What the first k writes of a commit are. */
  lemma CommitPrefix(l: Layout, s: Store, lh: seq<nat>, k: nat)
    requires Ready(l, s, lh) && lh != [] && k <= |CommitWrites(l, s, lh)|
    ensures GoodDisk(l, Committed(l, s, lh)) && |RecoverWrites(l, Committed(l, s, lh))| == |lh| + 1
    ensures CommitWrites(l, s, lh)[..k] ==
            if k <= |lh| then LogWrites(l, s, lh, k)
            else LogAndHeader(l, s, lh) + RecoverWrites(l, Committed(l, s, lh))[..k - |lh| - 1]
  {
    CommittedHeader(l, s, lh);
    CommitIsLogThenRecover(l, s, lh);
    PrefixOfConcat(LogAndHeader(l, s, lh), RecoverWrites(l, Committed(l, s, lh)), k);
    if k <= |lh| {
      PrefixOfConcat(LogWrites(l, s, lh, |lh|), [Write(l.start, Committed(l, s, lh)[l.start])], k);
      LogPrefix(l, s, lh, |lh|, k);
    } else {
      assert LogAndHeader(l, s, lh)[..|lh| + 1] == LogAndHeader(l, s, lh);
    }
  }

  function LogAndHeader(l: Layout, s: Store, lh: seq<nat>): (ws: seq<Write>)
    requires Fits(l, |s.disk|) && GoodEntries(l, |s.disk|, lh)
    ensures |ws| == |lh| + 1
  {
    LogWrites(l, s, lh, |lh|) + [Write(l.start, Committed(l, s, lh)[l.start])]
  }

  /** After log and header, j writes of recovery. */
  lemma RecoverPart(l: Layout, s: Store, lh: seq<nat>, j: nat)
    requires Ready(l, s, lh) && lh != [] && GoodDisk(l, Committed(l, s, lh))
    requires j <= |RecoverWrites(l, Committed(l, s, lh))|
    ensures Apply(s.disk, LogAndHeader(l, s, lh) + RecoverWrites(l, Committed(l, s, lh))[..j]) ==
            RecoverState(l, Committed(l, s, lh), j)
  {
    CommittedState(l, s, lh);
    RecoverApplies(l, Committed(l, s, lh), j);
    ApplyConcat(s.disk, LogAndHeader(l, s, lh), RecoverWrites(l, Committed(l, s, lh))[..j]);
  }

  lemma CommitAppliesAll(l: Layout, s: Store, lh: seq<nat>)
    requires Ready(l, s, lh) && lh != []
    ensures GoodDisk(l, Committed(l, s, lh))
    ensures Apply(s.disk, CommitWrites(l, s, lh)) == Recover(l, Committed(l, s, lh))
  {
    var n := |CommitWrites(l, s, lh)|;
    assert CommitWrites(l, s, lh)[..n] == CommitWrites(l, s, lh);
    CommitApplies(l, s, lh, n);
    CommittedHeader(l, s, lh);
    CommitIsLogThenRecover(l, s, lh);
  }

  lemma PrefixLogged(l: Layout, s: Store, lh: seq<nat>, k: nat)
    requires Ready(l, s, lh) && k <= |lh|
    ensures LogicallyOld(l, s, Logged(l, s, lh, k))
  {
    var d := Logged(l, s, lh, k);
    LoggedAt(l, s, lh, k, l.start);
    EmptyLogical(l, d, l.start);
    forall b | 0 <= b < |d| && !InLog(l, b) ensures Logical(l, d, b) == s.disk[b] {
      LoggedAt(l, s, lh, k, b);
      EmptyLogical(l, d, b);
    }
  }

  /** The header write is the commit point: from then on recovery gives the new state. */
  lemma HeaderCommits(l: Layout, s: Store, lh: seq<nat>)
    requires Ready(l, s, lh)
    ensures LogicallyNew(l, s, Committed(l, s, lh))
  {
    var e := Committed(l, s, lh);
    CommittedHeader(l, s, lh);
    forall b | 0 <= b < |e| && !InLog(l, b) ensures Logical(l, e, b) == s.Read(b) {
      CommittedAt(l, s, lh, b);
    }
  }

  lemma CommittedAt(l: Layout, s: Store, lh: seq<nat>, b: nat)
    requires Fits(l, |s.disk|) && GoodEntries(l, |s.disk|, lh) && b < |s.disk| && !InLog(l, b)
    requires b in s.pinned <==> b in lh
    requires GoodDisk(l, Committed(l, s, lh)) && Entries(Committed(l, s, lh)[l.start]) == lh
    ensures Logical(l, Committed(l, s, lh), b) == s.Read(b)
  {
    var i := Index(lh, |lh|, b);
    if i < |lh| {
      assert b == lh[i];
      LoggedAt(l, s, lh, |lh|, l.start + 1 + i);
    } else {
      LoggedAt(l, s, lh, |lh|, b);
    }
  }

  lemma StillNew(l: Layout, s: Store, d: Disk, e: Disk)
    requires LogicallyNew(l, s, d) && SameLogical(l, d, e)
    ensures LogicallyNew(l, s, e)
  {
  }

  lemma CrashAfterHeader(l: Layout, s: Store, c: Disk, k: nat, d: Disk)
    requires LogicallyNew(l, s, c) && d == RecoverState(l, c, k)
    ensures LogicallyNew(l, s, d)
  {
    CrashInRecovery(l, c, k);
    StillNew(l, s, c, d);
  }

  lemma CrashAfterCommit(l: Layout, s: Store, lh: seq<nat>, c: Disk, k: nat, d: Disk)
    requires Ready(l, s, lh) && c == Committed(l, s, lh) && GoodDisk(l, c) && d == RecoverState(l, c, k)
    ensures LogicallyNew(l, s, d)
  {
    HeaderCommits(l, s, lh);
    assert LogicallyNew(l, s, c);
    CrashAfterHeader(l, s, c, k, d);
  }

  /**
   The disk after the first k writes of a commit recovers to the old home blocks until
   the header is written, to the new ones from then on.
   */
  lemma CrashInCommit(l: Layout, s: Store, lh: seq<nat>, k: nat)
    requires Ready(l, s, lh)
    ensures GoodDisk(l, Committed(l, s, lh))
    ensures k <= |lh| ==> LogicallyOld(l, s, CommitState(l, s, lh, k))
    ensures k > |lh| ==> LogicallyNew(l, s, CommitState(l, s, lh, k))
  {
    CommittedHeader(l, s, lh);
    if k <= |lh| {
      PrefixLogged(l, s, lh, k);
    } else {
      CrashAfterCommit(l, s, lh, Committed(l, s, lh), k - |lh| - 1, CommitState(l, s, lh, k));
    }
  }

  /**
   Recovery interrupted after cuts[0] writes, restarted, interrupted after cuts[1]
   writes, and so on, until it completes.
   */
  function RecoverThroughCrashes(l: Layout, d: Disk, cuts: seq<nat>): (r: Disk)
    requires GoodDisk(l, d)
    ensures |r| == |d|
    decreases |cuts|
  {
    if cuts == [] then Recover(l, d)
    else
      CrashInRecovery(l, d, cuts[0]);
      RecoverThroughCrashes(l, RecoverState(l, d, cuts[0]), cuts[1..])
  }

  lemma {:induction false} CrashesDoNotMatter(l: Layout, d: Disk, cuts: seq<nat>, b: nat)
    requires GoodDisk(l, d) && b < |d| && !InLog(l, b)
    ensures EmptyLog(l, RecoverThroughCrashes(l, d, cuts))
    ensures RecoverThroughCrashes(l, d, cuts)[b] == Logical(l, d, b)
    decreases |cuts|
  {
    if cuts == [] {
      RecoverEmpties(l, d);
      RecoverAt(l, d, b);
    } else {
      CrashInRecovery(l, d, cuts[0]);
      CrashesDoNotMatter(l, RecoverState(l, d, cuts[0]), cuts[1..], b);
    }
  }

  lemma {:induction false} CrashesEmptyLog(l: Layout, d: Disk, cuts: seq<nat>)
    requires GoodDisk(l, d)
    ensures EmptyLog(l, RecoverThroughCrashes(l, d, cuts))
    decreases |cuts|
  {
    if cuts == [] {
      RecoverEmpties(l, d);
    } else {
      CrashInRecovery(l, d, cuts[0]);
      CrashesEmptyLog(l, RecoverState(l, d, cuts[0]), cuts[1..]);
    }
  }

  /**
   Crash atomicity.  A commit that is cut off after k of its disk writes, followed
   by a recovery that is itself cut off any number of times, leaves all home blocks
   old if the header write had not happened and all home blocks new if it had.
   */
  lemma CrashAtomicity(l: Layout, s: Store, lh: seq<nat>, k: nat, cuts: seq<nat>)
    requires Ready(l, s, lh) && k <= |CommitWrites(l, s, lh)|
    ensures GoodDisk(l, Apply(s.disk, CommitWrites(l, s, lh)[..k]))
    ensures var r := RecoverThroughCrashes(l, Apply(s.disk, CommitWrites(l, s, lh)[..k]), cuts);
            && EmptyLog(l, r)
            && (k <= |lh| ==> OldHome(l, s, r))
            && (k > |lh| ==> NewHome(l, s, r))
  {
    var d := CommitState(l, s, lh, k);
    CommitApplies(l, s, lh, k);
    CrashInCommit(l, s, lh, k);
    CrashesEmptyLog(l, d, cuts);
    var r := RecoverThroughCrashes(l, d, cuts);
    forall b | 0 <= b < |d| && !InLog(l, b) ensures r[b] == Logical(l, d, b) {
      CrashesDoNotMatter(l, d, cuts, b);
    }
  }

  /** A commit that runs to the end has itself installed the new home blocks and emptied the log. */
  lemma CompleteCommit(l: Layout, s: Store, lh: seq<nat>)
    requires Ready(l, s, lh)
    ensures var d := Apply(s.disk, CommitWrites(l, s, lh));
            EmptyLog(l, d) && NewHome(l, s, d)
  {
    if lh != [] {
      var e := Committed(l, s, lh);
      CommitAppliesAll(l, s, lh);
      HeaderCommits(l, s, lh);
      RecoverEmpties(l, e);
      forall b | 0 <= b < |e| && !InLog(l, b) ensures Recover(l, e)[b] == s.Read(b) {
        RecoverAt(l, e, b);
      }
    }
  }
}
