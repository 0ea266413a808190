/** An inode on disk: sixteen words of a block, the first two of them made of 16-bit halves. */
module DiskInode {
  import opened Basics
  import opened FsLayout

  const NWORDS: nat := 16

  /** The words of an inode on disk. */
  function InodeWords(ip: Inode): (ws: seq<nat>)
    requires FitsWords(ip)
    ensures |ws| == NWORDS && forall i :: 0 <= i < NWORDS ==> ws[i] < UINT
  {
    [ip.typ + 0x1_0000 * ip.major, ip.minor + 0x1_0000 * ip.nlink, ip.size] + ip.addrs
  }

  /** The ranges of the C types. */
  predicate FitsWords(ip: Inode) {
    |ip.addrs| == NDIRECT + 1 && ip.size < UINT && forall i :: 0 <= i < |ip.addrs| ==> ip.addrs[i] < UINT
  }

  /** Words of b from position k on become the first n of ws. */
  function PutWords(b: Block, k: nat, ws: seq<nat>, n: nat): (r: Block)
    requires n <= |ws| && k + n <= NINDIRECT && forall i :: 0 <= i < |ws| ==> ws[i] < UINT
  {
    if n == 0 then b else SetWord(PutWords(b, k, ws, n - 1), k + n - 1, ws[n - 1])
  }

  lemma {:induction false} PutWordsAt(b: Block, k: nat, ws: seq<nat>, n: nat, j: nat)
    requires n <= |ws| && k + n <= NINDIRECT && j < NINDIRECT && forall i :: 0 <= i < |ws| ==> ws[i] < UINT
    ensures Word(PutWords(b, k, ws, n), j) == if k <= j < k + n then ws[j - k] else Word(b, j)
  {
    if n > 0 {
      PutWordsAt(b, k, ws, n - 1, j);
      WordOfSet(PutWords(b, k, ws, n - 1), k + n - 1, ws[n - 1], j);
    }
  }

  /** What `iupdate` writes as inode i of the block. */
  function PutInode(b: Block, i: nat, ip: Inode): (r: Block)
    requires i < IPB && FitsWords(ip)
  {
    PutWords(b, 16 * i, InodeWords(ip), 16)
  }

  /** Words of b from position k on. */
  function Words(b: Block, k: nat, n: nat): (ws: seq<nat>)
    requires k + n <= NINDIRECT
    ensures |ws| == n
  {
    if n == 0 then [] else Words(b, k, n - 1) + [Word(b, k + n - 1)]
  }

  lemma {:induction false} WordsAt(b: Block, k: nat, n: nat, i: nat)
    requires k + n <= NINDIRECT && i < n
    ensures Words(b, k, n)[i] == Word(b, k + i)
  {
    if i < n - 1 {
      WordsAt(b, k, n - 1, i);
    }
  }

  lemma WordsPut(b: Block, k: nat, ws: seq<nat>)
    requires k + |ws| <= NINDIRECT && forall i :: 0 <= i < |ws| ==> ws[i] < UINT
    ensures Words(PutWords(b, k, ws, |ws|), k, |ws|) == ws
  {
    var r := PutWords(b, k, ws, |ws|);
    forall i | 0 <= i < |ws| ensures Words(r, k, |ws|)[i] == ws[i] {
      WordsAt(r, k, |ws|, i);
      PutWordsAt(b, k, ws, |ws|, k + i);
    }
  }

  lemma WordsKept(b: Block, k: nat, ws: seq<nat>, l: nat, n: nat)
    requires k + |ws| <= NINDIRECT && l + n <= NINDIRECT && forall i :: 0 <= i < |ws| ==> ws[i] < UINT
    requires l + n <= k || k + |ws| <= l
    ensures Words(PutWords(b, k, ws, |ws|), l, n) == Words(b, l, n)
  {
    var r := PutWords(b, k, ws, |ws|);
    var x, y := Words(r, l, n), Words(b, l, n);
    forall i | 0 <= i < n ensures x[i] == y[i] {
      WordsAt(r, l, n, i);
      WordsAt(b, l, n, i);
      PutWordsAt(b, k, ws, |ws|, l + i);
    }
  }

  function OfWords(ws: seq<nat>): (ip: Inode)
    requires |ws| == NWORDS && ws[0] < UINT && ws[1] < UINT
  {
    Inode(ws[0] % 0x1_0000, ws[0] / 0x1_0000, ws[1] % 0x1_0000, ws[1] / 0x1_0000, ws[2], ws[3..])
  }

  lemma OfInodeWords(ip: Inode)
    requires FitsWords(ip)
    ensures OfWords(InodeWords(ip)) == ip
  {
    var ws := InodeWords(ip);
    Halves(ip.typ, ip.major);
    Halves(ip.minor, ip.nlink);
    assert ws[3..] == ip.addrs;
  }

  lemma Halves(lo: ushort, hi: ushort)
    ensures (lo + 0x1_0000 * hi) % 0x1_0000 == lo && (lo + 0x1_0000 * hi) / 0x1_0000 == hi
  {
  }

  /** What `ilock` reads as inode i of the block. */
  function GetInode(b: Block, i: nat): (ip: Inode)
    requires i < IPB
  {
    WordsAt(b, 16 * i, 16, 0);
    WordsAt(b, 16 * i, 16, 1);
    OfWords(Words(b, 16 * i, 16))
  }

  /** The 16-bit number at byte a of a block, little-endian. */
  function Short(b: Block, a: nat): (v: nat)
    requires a + 1 < 512
  {
    b[a] as nat + 0x100 * b[a + 1] as nat
  }

  /** The 32-bit number at byte a of a block, little-endian. */
  function Long(b: Block, a: nat): (v: nat)
    requires a + 3 < 512
  {
    Short(b, a) + 0x1_0000 * Short(b, a + 2)
  }

  lemma WordBytes(b: Block, j: nat)
    requires j < NINDIRECT
    ensures Word(b, j) == Long(b, 4 * j)
    ensures Word(b, j) % 0x1_0000 == Short(b, 4 * j) && Word(b, j) / 0x1_0000 == Short(b, 4 * j + 2)
  {
    Halves(Short(b, 4 * j), Short(b, 4 * j + 2));
  }

  /** The fields of an inode, in the order of struct dinode, by their bytes in the block. */
  lemma InodeBytes(b: Block, i: nat)
    requires i < IPB
    ensures var ip := GetInode(b, i);
            && ip.typ == Short(b, 64 * i) && ip.major == Short(b, 64 * i + 2)
            && ip.minor == Short(b, 64 * i + 4) && ip.nlink == Short(b, 64 * i + 6)
            && ip.size == Long(b, 64 * i + 8) && |ip.addrs| == NDIRECT + 1
            && forall k :: 0 <= k <= NDIRECT ==> ip.addrs[k] == Long(b, 64 * i + 12 + 4 * k)
  {
    var ws := Words(b, 16 * i, 16);
    forall k | 0 <= k < 16 ensures ws[k] == Word(b, 16 * i + k) == Long(b, 64 * i + 4 * k) {
      WordsAt(b, 16 * i, 16, k);
      WordBytes(b, 16 * i + k);
    }
    WordBytes(b, 16 * i);
    WordBytes(b, 16 * i + 1);
    assert forall k :: 0 <= k <= NDIRECT ==> ws[3..][k] == ws[3 + k];
  }

  /** An inode is read back as it was written. */
  lemma InodeRoundTrip(b: Block, i: nat, ip: Inode)
    requires i < IPB && FitsWords(ip)
    ensures GetInode(PutInode(b, i, ip), i) == ip
  {
    WordsPut(b, 16 * i, InodeWords(ip));
    OfInodeWords(ip);
  }

  /** The other inodes of the block are untouched. */
  lemma OtherInodes(b: Block, i: nat, ip: Inode, j: nat)
    requires i < IPB && j < IPB && j != i && FitsWords(ip)
    ensures GetInode(PutInode(b, i, ip), j) == GetInode(b, j)
  {
    WordsKept(b, 16 * i, InodeWords(ip), 16 * j, 16);
  }

  // ------------------------------------------------------------------
  // All inodes

  /** Inode n as the inode blocks hold it. */
  function OnDisk(blocks: seq<Block>, n: nat): (ip: Inode)
    requires n / IPB < |blocks|
  {
    GetInode(blocks[n / IPB], n % IPB)
  }

  /** The inode blocks hold the inodes. */
  predicate Stores(blocks: seq<Block>, dinodes: seq<Inode>) {
    && |dinodes| <= |blocks| * IPB
    && forall n {:trigger OnDisk(blocks, n)} :: 0 <= n < |dinodes| ==> OnDisk(blocks, n) == dinodes[n]
  }

  function WithInode(blocks: seq<Block>, n: nat, ip: Inode): (blocks': seq<Block>)
    requires n / IPB < |blocks| && FitsWords(ip)
  {
    blocks[n / IPB := PutInode(blocks[n / IPB], n % IPB, ip)]
  }

  lemma InodeAfter(blocks: seq<Block>, n: nat, ip: Inode, m: nat)
    requires n / IPB < |blocks| && m / IPB < |blocks| && FitsWords(ip)
    ensures OnDisk(WithInode(blocks, n, ip), m) == if m == n then ip else OnDisk(blocks, m)
  {
    if m == n {
      InodeRoundTrip(blocks[n / IPB], n % IPB, ip);
    } else if m / IPB == n / IPB {
      OtherInodes(blocks[n / IPB], n % IPB, ip, m % IPB);
    }
  }

  lemma StoreInode(blocks: seq<Block>, dinodes: seq<Inode>, n: nat, ip: Inode)
    requires Stores(blocks, dinodes) && n < |dinodes| && FitsWords(ip)
    ensures n / IPB < |blocks| && Stores(WithInode(blocks, n, ip), dinodes[n := ip])
  {
    var blocks' := WithInode(blocks, n, ip);
    forall m | 0 <= m < |dinodes| ensures m / IPB < |blocks| && OnDisk(blocks', m) == dinodes[n := ip][m] {
      InodeAfter(blocks, n, ip, m);
      assert OnDisk(blocks, m) == dinodes[m];
    }
  }
}
