// Physical memory below the device area, and the page allocator (mm.c, mm.S).
//
// Memory is a sequence of 64-bit words: the word at physical address pa is mem[pa / 8].
// A table, a user page and a task_struct page are all 4 KB frames, so most statements speak of
// word w (0 <= w < 512) of the frame at a page-aligned address.
module PhysMem {
  import opened Bits

  const PAGE_SIZE := 4096
  const VA_START := 0xffff_0000_0000_0000
  const LOW_MEMORY := 0x40_0000
  const HIGH_MEMORY := 0x3f00_0000
  const PAGING_PAGES := 257024
  const PTRS_PER_TABLE := 512
  const MEM_WORDS := 0x7e0_0000

  // Physical memory and the allocation map mem_map.
  datatype Phys = Phys(mem: seq<Word>, memMap: seq<nat>)

  predicate Shaped(p: Phys) {
    |p.mem| == MEM_WORDS && |p.memMap| == PAGING_PAGES
  }

  predicate IsFrame(f: nat) {
    LOW_MEMORY <= f < HIGH_MEMORY && f % PAGE_SIZE == 0
  }

  function FrameAddr(i: nat): nat {
    LOW_MEMORY + i * PAGE_SIZE
  }

  function FrameIndex(f: nat): nat
    requires f >= LOW_MEMORY
  {
    (f - LOW_MEMORY) / PAGE_SIZE
  }

  // Word w of the memory that starts at physical address base.
  function WordAt(mem: seq<Word>, base: nat, w: nat): Word {
    var i := base / 8 + w;
    if i < |mem| then mem[i] else 0
  }

  function SetWord(mem: seq<Word>, base: nat, w: nat, v: Word): (r: seq<Word>)
    ensures |r| == |mem|
  {
    var i := base / 8 + w;
    if i < |mem| then mem[i := v] else mem
  }

  // A page-aligned address, in bytes and in words.
  lemma FrameNumber(f: nat)
    requires f % PAGE_SIZE == 0
    ensures var q := f / PAGE_SIZE; f == PAGE_SIZE * q && f / 8 == 512 * q && f % 8 == 0
  {
    RemainderUnique(f, 8, 512 * (f / PAGE_SIZE), 0);
  }

  lemma SetThenRead(mem: seq<Word>, f: nat, w: nat, v: Word, g: nat, u: nat)
    requires |mem| == MEM_WORDS && IsFrame(f) && IsFrame(g) && w < 512 && u < 512
    ensures WordAt(SetWord(mem, f, w, v), g, u) == if f == g && w == u then v else WordAt(mem, g, u)
  {
    FrameNumber(f);
    FrameNumber(g);
    assert f / PAGE_SIZE < 0x3f000 && g / PAGE_SIZE < 0x3f000;
    hide IsFrame;
  }

  // The words a post-test loop of 8-byte steps covers for a byte count of n: at least one.
  function Steps(n: nat): nat {
    if n <= 8 then 1 else (n + 7) / 8
  }

  // What memzero(base, n) leaves in memory.
  function Zeroed(mem: seq<Word>, base: nat, n: nat): (r: seq<Word>)
    ensures |r| == |mem|
  {
    seq(|mem|, i requires 0 <= i < |mem| => if base / 8 <= i < base / 8 + Steps(n) then 0 else mem[i])
  }

  lemma ZeroedFrame(mem: seq<Word>, f: nat, g: nat, w: nat)
    requires |mem| == MEM_WORDS && IsFrame(f) && IsFrame(g) && w < 512
    ensures WordAt(Zeroed(mem, f, PAGE_SIZE), g, w) == if f == g then 0 else WordAt(mem, g, w)
  {
    FrameNumber(f);
    FrameNumber(g);
    assert Steps(PAGE_SIZE) == 512 && g / PAGE_SIZE < 0x3f000;
    hide IsFrame, Steps;
    var i := g / 8 + w;
    assert f / 8 <= i < f / 8 + 512 <==> f == g;
  }

  // The least index at or after i of a free page, or |m| when there is none.
  function FirstFree(m: seq<nat>, i: nat): (r: nat)
    requires i <= |m|
    ensures i <= r <= |m|
    ensures forall j :: i <= j < r ==> m[j] != 0
    ensures r < |m| ==> m[r] == 0
    decreases |m| - i
  {
    if i == |m| || m[i] == 0 then i else FirstFree(m, i + 1)
  }

  ghost function Free(m: seq<nat>): set<nat> {
    set i | 0 <= i < |m| && m[i] == 0
  }

  ghost function FreeCount(p: Phys): nat {
    |Free(p.memMap)|
  }

  // get_free_page: the first free page, marked and zeroed, or 0.
  function GetFreePage(p: Phys): (r: (Phys, nat))
    ensures Shaped(p) ==> Shaped(r.0) && (r.1 == 0 || IsFrame(r.1))
    ensures r.1 == 0 ==> r.0 == p
  {
    var i := FirstFree(p.memMap, 0);
    if i < |p.memMap| then
      (Phys(Zeroed(p.mem, FrameAddr(i), PAGE_SIZE), p.memMap[i := 1]), FrameAddr(i))
    else
      (p, 0)
  }

  function FreePage(p: Phys, f: nat): Phys
    requires IsFrame(f) && Shaped(p)
  {
    p.(memMap := p.memMap[FrameIndex(f) := 0])
  }

  predicate Marked(p: Phys, f: nat)
    requires Shaped(p) && IsFrame(f)
  {
    p.memMap[FrameIndex(f)] != 0
  }

  // A page that get_free_page hands out was free, is the only page whose mark changes, reads as
  // zero, and no other page or kernel word changes. It hands out no page only when none is free.
  lemma GetFreePageGivesZeroedFreeFrame(p: Phys)
    requires Shaped(p)
    ensures var (q, f) := GetFreePage(p);
      && Shaped(q)
      && (f == 0 <==> FreeCount(p) == 0)
      && (f == 0 ==> q == p)
      && (f != 0 ==>
        && IsFrame(f) && !Marked(p, f) && Marked(q, f)
        && FreeCount(q) == FreeCount(p) - 1
        && (forall g :: IsFrame(g) && g != f ==> Marked(q, g) == Marked(p, g))
        && (forall w :: 0 <= w < 512 ==> WordAt(q.mem, f, w) == 0)
        && (forall g, w :: IsFrame(g) && g != f && 0 <= w < 512 ==> WordAt(q.mem, g, w) == WordAt(p.mem, g, w))
        && q.mem[..LOW_MEMORY / 8] == p.mem[..LOW_MEMORY / 8])
  {
    var i := FirstFree(p.memMap, 0);
    if i < |p.memMap| {
      assert i in Free(p.memMap);
      assert Free(p.memMap[i := 1]) == Free(p.memMap) - {i};
      var f := FrameAddr(i);
      forall g, w | IsFrame(g) && 0 <= w < 512
        ensures WordAt(Zeroed(p.mem, f, PAGE_SIZE), g, w) == if f == g then 0 else WordAt(p.mem, g, w)
      {
        ZeroedFrame(p.mem, f, g, w);
      }
    } else {
      assert Free(p.memMap) == {};
    }
  }
}
