/** Pages, page ids and the disk behind the buffer pool (wasdb_storage/src/lib.rs). */
module Storage {
  import opened Util

  datatype PageId = PageId(fileId: u32, pageNum: u32)

  /** Room for the 24-byte page header, and offsets that fit in a u16. */
  type PageSize = n: int | 24 <= n < U16 witness 8192

  /** The compile-time page size: every result holds for each admissible value. */
  const PAGE_SIZE: PageSize

  type Page = p: seq<byte> | |p| == PAGE_SIZE ghost witness seq(PAGE_SIZE, _ => 0)

  function ZeroPage(): Page {
    seq(PAGE_SIZE, _ => 0)
  }

  /** The log sequence number in the first eight bytes of a page. */
  function PageLsn(p: Page): nat {
    LeNat(p[..8])
  }

  /** The `DiskManager` trait: a total map from page ids to pages, zero until written, and the page counter. */
  datatype Disk = Disk(pages: map<PageId, Page>, totalPages: u32)
  {
    function Read(pid: PageId): Page {
      if pid in pages then pages[pid] else ZeroPage()
    }

    function Write(pid: PageId, p: Page): Disk {
      this.(pages := pages[pid := p])
    }

    /** The counter is a 32-bit atomic, and every page is put in file 0. */
    function Allocate(): (Disk, PageId) {
      (this.(totalPages := (totalPages + 1) % U32), PageId(0, totalPages))
    }
  }

  // ----- The byte file of `BasicDiskManager` realises that map within one file -----

  function Offset(pageNum: nat): nat {
    pageNum * PAGE_SIZE
  }

  function Zeros(n: nat): seq<byte> {
    seq(n, _ => 0)
  }

  /** Bytes beyond the end of the file read as zero. */
  function ReadFile(file: seq<byte>, pageNum: nat): Page {
    var at := Offset(pageNum);
    (file + Zeros(at + PAGE_SIZE))[at..at + PAGE_SIZE]
  }

  /** Writing past the end first extends the file with zeros. */
  function WriteFile(file: seq<byte>, pageNum: nat, p: Page): seq<byte> {
    var at := Offset(pageNum);
    var extended := if |file| < at then file + Zeros(at - |file|) else file;
    extended[..at] + p + (if at + PAGE_SIZE <= |file| then file[at + PAGE_SIZE..] else [])
  }

  lemma OffsetsDoNotOverlap(m: nat, n: nat)
    requires m < n
    ensures Offset(m) + PAGE_SIZE <= Offset(n)
  {
    var size: nat, gap: nat := PAGE_SIZE, n - m - 1;
    assert n * size == m * size + size + gap * size;
  }

  function ByteAt(file: seq<byte>, i: nat): byte {
    if i < |file| then file[i] else 0
  }

  lemma WriteFileAt(file: seq<byte>, n: nat, p: Page, i: nat)
    ensures ByteAt(WriteFile(file, n, p), i) ==
            if Offset(n) <= i < Offset(n) + PAGE_SIZE then p[i - Offset(n)] else ByteAt(file, i)
  {
  }

  /** A written page reads back, and no other page changes, even when the file had to grow over a gap or
      ended in the middle of a page. */
  lemma FileIsPageMap(file: seq<byte>, n: nat, p: Page, m: nat)
    ensures ReadFile(WriteFile(file, n, p), m) == if m == n then p else ReadFile(file, m)
  {
    if m < n {
      OffsetsDoNotOverlap(m, n);
    } else if n < m {
      OffsetsDoNotOverlap(n, m);
    }
    var before, after := ReadFile(file, m), ReadFile(WriteFile(file, n, p), m);
    forall i: nat | i < PAGE_SIZE
      ensures after[i] == if m == n then p[i] else before[i]
    {
      WriteFileAt(file, n, p, Offset(m) + i);
      assert before[i] == ByteAt(file, Offset(m) + i);
      assert after[i] == ByteAt(WriteFile(file, n, p), Offset(m) + i);
    }
  }

  /** The pages a file shows, as the map of file 0. */
  function PagesOf(file: seq<byte>): map<PageId, Page> {
    map n | 0 <= n < |file| && n < U32 :: PageId(0, n) := ReadFile(file, n)
  }

  lemma ReadPastEnd(file: seq<byte>, n: nat)
    requires |file| <= n
    ensures ReadFile(file, n) == ZeroPage()
  {
    var size: nat := PAGE_SIZE;
    assert n * size >= n;
    forall i: nat | i < PAGE_SIZE
      ensures ReadFile(file, n)[i] == 0
    {
      assert ReadFile(file, n)[i] == ByteAt(file, Offset(n) + i);
    }
  }

  lemma PagesShown(file: seq<byte>, n: u32)
    ensures Disk(PagesOf(file), 0).Read(PageId(0, n)) == ReadFile(file, n)
  {
    hide ReadFile, ZeroPage;
    if |file| <= n {
      ReadPastEnd(file, n);
    }
  }

  /** The whole pages of a file, counted. */
  lemma WholePages(file: seq<byte>, n: nat)
    ensures n < |file| / PAGE_SIZE <==> (n + 1) * PAGE_SIZE <= |file|
  {
    var size: nat, whole: nat := PAGE_SIZE, |file| / PAGE_SIZE;
    assert whole * size <= |file| < (whole + 1) * size;
    if n < whole {
      MulOrder(n + 1, whole, size);
    } else {
      MulOrder(whole + 1, n + 1, size);
    }
  }

  lemma MulOrder(m: nat, n: nat, size: nat)
    requires m <= n
    ensures m * size <= n * size
  {
    assert n * size == m * size + (n - m) * size;
  }

  /** The disk manager over one file. The file part of a page id is ignored: all ids are pages of file 0. */
  class BasicDiskManager {
    var file: seq<byte>
    var totalPages: u32
    /** The map that the file stands for. */
    ghost var disk: Disk

    ghost predicate Valid()
      reads this
    {
      && disk.totalPages == totalPages
      && forall n: u32 :: ReadFile(file, n) == disk.Read(PageId(0, n))
    }

    constructor (file: seq<byte>)
      ensures Valid() && this.file == file && disk.pages == PagesOf(file)
      ensures totalPages == |file| / PAGE_SIZE % U32
    {
      this.file := file;
      totalPages := |file| / PAGE_SIZE % U32;
      disk := Disk(PagesOf(file), |file| / PAGE_SIZE % U32);
      forall n: u32
        ensures ReadFile(file, n) == Disk(PagesOf(file), |file| / PAGE_SIZE % U32).Read(PageId(0, n))
      {
        PagesShown(file, n);
      }
    }

    /** Zero beyond the end of the file, also in the middle of a page. */
    method ReadPage(pid: PageId) returns (p: Page)
      requires Valid()
      ensures p == disk.Read(PageId(0, pid.pageNum))
      ensures forall k :: 0 <= k < PAGE_SIZE ==> p[k] == ByteAt(file, pid.pageNum * PAGE_SIZE + k)
    {
      var at := Offset(pid.pageNum);
      if at >= |file| {
        p := ZeroPage();
      } else if at + PAGE_SIZE <= |file| {
        p := file[at..at + PAGE_SIZE];
      } else {
        p := file[at..] + Zeros(at + PAGE_SIZE - |file|);
      }
      assert p == ReadFile(file, pid.pageNum);
    }

    /** Changes the bytes of one page, extending the file as far as needed. */
    method WritePage(pid: PageId, p: Page)
      requires Valid()
      modifies this
      ensures Valid() && disk == old(disk).Write(PageId(0, pid.pageNum), p) && totalPages == old(totalPages)
      ensures forall i: nat ::
                ByteAt(file, i) == if 0 <= i - pid.pageNum * PAGE_SIZE < PAGE_SIZE then p[i - pid.pageNum * PAGE_SIZE]
                                   else ByteAt(old(file), i)
    {
      forall n: u32
        ensures ReadFile(WriteFile(file, pid.pageNum, p), n) == if n == pid.pageNum then p else ReadFile(file, n)
      {
        FileIsPageMap(file, pid.pageNum, p, n);
      }
      hide ReadFile;
      var at := Offset(pid.pageNum);
      if |file| < at {
        file := file + Zeros(at - |file|);
      }
      file := file[..at] + p + (if at + PAGE_SIZE <= |file| then file[at + PAGE_SIZE..] else []);
      assert file == WriteFile(old(file), pid.pageNum, p);
      forall i: nat
        ensures ByteAt(file, i) ==
                if Offset(pid.pageNum) <= i < Offset(pid.pageNum) + PAGE_SIZE then p[i - Offset(pid.pageNum)]
                else ByteAt(old(file), i)
      {
        WriteFileAt(old(file), pid.pageNum, p, i);
      }
      disk := disk.Write(PageId(0, pid.pageNum), p);
    }

    /** Hands out the number that the counter shows, and moves it on. */
    method AllocatePage(fileId: u32) returns (pid: PageId)
      requires Valid()
      modifies this
      ensures Valid() && (disk, pid) == old(disk).Allocate() && file == old(file) && disk.pages == old(disk).pages
      ensures pid.fileId == 0 && pid.pageNum == old(totalPages)
      ensures totalPages == if old(totalPages) == 0xFFFF_FFFF then 0 else old(totalPages) + 1
    {
      pid := PageId(0, totalPages);
      totalPages := (totalPages + 1) % U32;
      hide ReadFile;
      disk := disk.(totalPages := totalPages);
      assert forall n: u32 :: disk.Read(PageId(0, n)) == old(disk).Read(PageId(0, n));
    }
  }

  /** A disk manager as its clients know it: the map itself. */
  class DiskManager {
    var pages: map<PageId, Page>
    var totalPages: u32

    function Value(): Disk
      reads this
    {
      Disk(pages, totalPages)
    }

    constructor (pages: map<PageId, Page>, totalPages: u32)
      ensures Value() == Disk(pages, totalPages)
    {
      this.pages, this.totalPages := pages, totalPages;
    }

    method ReadPage(pid: PageId) returns (p: Page)
      ensures p == Value().Read(pid)
    {
      p := if pid in pages then pages[pid] else ZeroPage();
    }

    method WritePage(pid: PageId, p: Page)
      modifies this
      ensures Value() == old(Value()).Write(pid, p)
    {
      pages := pages[pid := p];
    }

    method AllocatePage(fileId: u32) returns (pid: PageId)
      modifies this
      ensures (Value(), pid) == old(Value()).Allocate() && pages == old(pages)
      ensures pid.fileId == 0 && pid.pageNum == old(totalPages)
      ensures totalPages == if old(totalPages) == 0xFFFF_FFFF then 0 else old(totalPages) + 1
    {
      pid := PageId(0, totalPages);
      totalPages := (totalPages + 1) % U32;
    }
  }
}
