/** The loader's arithmetic as it is done, on 64-bit words: where it agrees with the segments'
    own numbers, and where a sum that wraps gets past the tests. */
module ElfWords {
  import opened Arithmetic
  import opened Bits
  import opened ElfModel

  const WORD: nat := 0x1_0000_0000_0000_0000

  function Plus(a: nat, b: nat): (r: nat)
    ensures r < WORD && (a + b < WORD ==> r == a + b)
  {
    (a + b) % WORD
  }

  function Minus(a: nat, b: nat): (r: nat)
    requires b < WORD
    ensures r < WORD && (b <= a < WORD ==> r == a - b)
  {
    (a + (WORD - b)) % WORD
  }

  function AlignUp(a: nat): nat {
    Plus(a, PAGE - 1) / PAGE * PAGE
  }

  /** The fields are 64 bits wide. */
  predicate Words(s: Segment) {
    s.offset < WORD && s.vaddr < WORD && s.filesz < WORD && s.memsz < WORD
  }

  predicate AllWords(segs: seq<Segment>) {
    forall s :: s in segs ==> Words(s)
  }

  // ---- the tests --------------------------------------------------------------------------------

  function Start(s: Segment): nat {
    s.vaddr / PAGE * PAGE
  }

  /** What the segment loop tests before it maps anything. */
  predicate Passes(s: Segment, file: seq<Byte>) {
    s.offset <= |file| && Plus(s.offset, s.filesz) <= |file| && s.filesz <= s.memsz && Start(s) < USER_LIMIT
  }

  function PageCount(s: Segment): nat
    requires Words(s)
  {
    Minus(AlignUp(Plus(s.vaddr, s.memsz)), Start(s)) / PAGE
  }

  /** No sum of a segment's fields wraps. */
  predicate Whole(s: Segment) {
    s.offset + s.filesz < WORD && s.vaddr + s.memsz + (PAGE - 1) < WORD
  }

  /** The tests put the file range inside the file if and only if its end does not wrap. */
  lemma TestIsMeantExactly(s: Segment, file: seq<Byte>)
    requires Words(s) && Passes(s, file) && |file| < WORD
    ensures Acceptable(s, file) <==> s.offset + s.filesz < WORD
  {
  }

  /** The pages are counted modulo 2^52, so the count is right exactly up to there. */
  lemma PageCountIs(s: Segment)
    requires Words(s) && s.memsz > 0
    ensures PageCount(s) == (EndPage(s) - FirstPage(s)) % 0x10_0000_0000_0000
    ensures PageCount(s) == EndPage(s) - FirstPage(s) <==> EndPage(s) - FirstPage(s) < 0x10_0000_0000_0000
  {
    var x, start := s.vaddr + s.memsz, FirstPage(s);
    var n := 0x10_0000_0000_0000;
    AlignedIs(x);
    var e := EndPage(s) % n;
    assert Start(s) == PAGE * start && start < n;
    assert PAGE * e + (WORD - PAGE * start) == PAGE * (e + n - start);
    PagesWrap(e + n - start);
    assert EndPage(s) - start + n == n * (EndPage(s) / n) + (e + n - start);
    ModuloSame(EndPage(s) - start, EndPage(s) / n - 1, e + n - start);
  }

  lemma AlignedIs(x: nat)
    ensures AlignUp(Plus(x, 0)) == PAGE * ((x + PAGE - 1) / PAGE % 0x10_0000_0000_0000)
    ensures Plus(x, 0) == x % WORD
  {
    var n := 0x10_0000_0000_0000;
    var y := x + PAGE - 1;
    var k := x / WORD;
    assert (x % WORD + (PAGE - 1)) % WORD == y % WORD by {
      assert y == WORD * k + (x % WORD + (PAGE - 1));
    }
    PageOfWord(y);
  }

  lemma PagesWrap(q: nat)
    ensures PAGE * q % WORD / PAGE == q % 0x10_0000_0000_0000
  {
    PageOfWord(PAGE * q);
  }

  lemma ModuloSame(a: int, k: int, b: nat)
    requires a == 0x10_0000_0000_0000 * k + b
    ensures a % 0x10_0000_0000_0000 == b % 0x10_0000_0000_0000
  {
    var n := 0x10_0000_0000_0000;
    assert a == n * (k + b / n) + b % n;
  }

  // ---- the copy ---------------------------------------------------------------------------------

  /** The part of the file that is copied into a page. */
  datatype Copying = Nothing | Copy(inPage: nat, inFile: nat, length: nat)

  function CopyFor(s: Segment, pageStart: nat): Copying
    requires Words(s) && pageStart < WORD
  {
    var fileEnd := Plus(s.vaddr, s.filesz);
    if pageStart < fileEnd && Plus(pageStart, PAGE) > s.vaddr then
      var from := if pageStart > s.vaddr then pageStart else s.vaddr;
      var to := if Plus(pageStart, PAGE) < fileEnd then Plus(pageStart, PAGE) else fileEnd;
      Copy(Minus(from, pageStart), Plus(s.offset, Minus(from, s.vaddr)), Minus(to, from))
    else Nothing
  }

  predicate Inside(c: Copying, file: seq<Byte>) {
    c.Copy? ==> c.inPage + c.length <= PAGE && c.inFile + c.length <= |file|
  }

  function ZeroPage(): (b: seq<Byte>)
    ensures |b| == PAGE && forall i :: 0 <= i < PAGE ==> b[i] == 0
  {
    seq(PAGE, i => 0)
  }

  /** A zeroed frame with the copy in it. */
  function Filled(c: Copying, file: seq<Byte>): (b: seq<Byte>)
    requires Inside(c, file)
    ensures |b| == PAGE
  {
    if c.Nothing? then ZeroPage()
    else ZeroPage()[..c.inPage] + file[c.inFile..c.inFile + c.length] + ZeroPage()[c.inPage + c.length..]
  }

  lemma CopyIs(s: Segment, file: seq<Byte>, page: nat)
    requires Words(s) && Acceptable(s, file) && Whole(s) && FirstPage(s) <= page < EndPage(s)
    ensures PAGE * page + PAGE < WORD
    ensures var c, start, end := CopyFor(s, PAGE * page), PAGE * page, s.vaddr + s.filesz;
      if start < end && start + PAGE > s.vaddr then
        && c.Copy? && c.inPage == (if start > s.vaddr then 0 else s.vaddr - start)
        && c.inFile == s.offset + (start + c.inPage - s.vaddr)
        && c.length == (if start + PAGE < end then start + PAGE else end) - (start + c.inPage)
        && 0 <= c.inFile - s.offset && c.inFile + c.length <= s.offset + s.filesz && c.inPage + c.length <= PAGE
      else c.Nothing?
  {
    assert Plus(PAGE * page, PAGE) == PAGE * page + PAGE;
    assert Plus(s.vaddr, s.filesz) == s.vaddr + s.filesz;
    hide Plus, Minus;
  }

  /** Where no sum wraps the copy stays inside the file and the frame, and leaves the segment's
      image there. */
  lemma CopyIsImage(s: Segment, file: seq<Byte>, page: nat)
    requires Words(s) && Acceptable(s, file) && Whole(s) && FirstPage(s) <= page < EndPage(s)
    ensures PAGE * page + PAGE < WORD && Inside(CopyFor(s, PAGE * page), file)
    ensures Filled(CopyFor(s, PAGE * page), file) == PageImage(s, file, page)
  {
    CopyIs(s, file, page);
    var c := CopyFor(s, PAGE * page);
    var image, b := PageImage(s, file, page), Filled(c, file);
    hide CopyFor, PageImage, Filled, Whole, FirstPage, EndPage, ImageByte;
    forall i | 0 <= i < PAGE ensures b[i] == image[i] {
      CopyByte(s, file, page, i);
    }
  }

  lemma CopyByte(s: Segment, file: seq<Byte>, page: nat, i: nat)
    requires Words(s) && Acceptable(s, file) && Whole(s) && FirstPage(s) <= page < EndPage(s) && i < PAGE
    ensures PAGE * page + PAGE < WORD && Inside(CopyFor(s, PAGE * page), file)
    ensures Filled(CopyFor(s, PAGE * page), file)[i] == ImageByte(s, file, 4096 * page + i)
  {
    CopyIs(s, file, page);
    var c := CopyFor(s, PAGE * page);
    hide CopyFor, Whole, FirstPage, EndPage;
    if c.Copy? {
      FilledBytes(c, file);
    }
    hide Filled;
  }

  lemma FilledBytes(c: Copying, file: seq<Byte>)
    requires c.Copy? && Inside(c, file)
    ensures forall i :: 0 <= i < PAGE ==>
      Filled(c, file)[i] == if c.inPage <= i < c.inPage + c.length then file[c.inFile + (i - c.inPage)] else 0
  {
    hide ZeroPage;
  }

  // ---- loading ----------------------------------------------------------------------------------

  /** A frame is taken and mapped at the next address, and the copy made. */
  function LoadPageAt(sp: Space, s: Segment, file: seq<Byte>, k: nat): Result
    requires Words(s)
  {
    var pageStart := Plus(Start(s), PAGE * k);
    if sp.supply == [] then Err(NoMemory)
    else if pageStart / PAGE in sp.pages then Err(Exists)
    else if !Inside(CopyFor(s, pageStart), file) then Err(Stray)
    else
      var f := sp.supply[0];
      Ok(Space(sp.pages[pageStart / PAGE := Mapping(f, FlagsOf(s))],
               sp.memory[f := Filled(CopyFor(s, pageStart), file)], sp.supply[1..]))
  }

  function LoadFrom(sp: Space, s: Segment, file: seq<Byte>, k: nat, n: nat): Result
    requires Words(s)
    decreases n - k
  {
    if k >= n then Ok(sp)
    else match LoadPageAt(sp, s, file, k)
      case Err(e) => Err(e)
      case Ok(next) => LoadFrom(next, s, file, k + 1, n)
  }

  function LoadAll(sp: Space, segs: seq<Segment>, file: seq<Byte>): Result
    requires AllWords(segs)
    decreases |segs|
  {
    if segs == [] then Ok(sp)
    else
      var s := segs[0];
      if !Loads(s) then LoadAll(sp, segs[1..], file)
      else if !Passes(s, file) then Err(Invalid)
      else match LoadFrom(sp, s, file, 0, PageCount(s))
        case Err(e) => Err(e)
        case Ok(next) => LoadAll(next, segs[1..], file)
  }

  /** `elf_load`, up to the stack. */
  function ElfLoadWords(sp: Space, segs: seq<Segment>, file: seq<Byte>): Result
    requires AllWords(segs)
  {
    match LoadAll(sp, segs, file)
    case Err(e) => Err(e)
    case Ok(r) => if exists s :: s in segs && Loads(s) then Ok(r) else Err(Invalid)
  }

  lemma PageIs(sp: Space, s: Segment, file: seq<Byte>, k: nat)
    requires Words(s) && Acceptable(s, file) && Whole(s) && FirstPage(s) + k < EndPage(s)
    ensures LoadPageAt(sp, s, file, k) == LoadPage(sp, s, file, FirstPage(s) + k)
  {
    var page := FirstPage(s) + k;
    CopyIsImage(s, file, page);
    assert Start(s) + PAGE * k == PAGE * page && PAGE * page / PAGE == page;
    assert Plus(Start(s), PAGE * k) == PAGE * page;
    hide PageImage, CopyFor, Filled, Inside, Plus, Start, Acceptable, Whole, FirstPage, EndPage;
  }

  lemma {:induction false} PagesAre(sp: Space, s: Segment, file: seq<Byte>, k: nat)
    requires Words(s) && Acceptable(s, file) && Whole(s) && FirstPage(s) + k <= EndPage(s)
    ensures LoadFrom(sp, s, file, k, EndPage(s) - FirstPage(s)) == LoadPages(sp, s, file, FirstPage(s) + k, EndPage(s))
    decreases EndPage(s) - k
  {
    hide LoadPage, LoadPageAt, Acceptable, Whole;
    if FirstPage(s) + k < EndPage(s) {
      PageIs(sp, s, file, k);
      var one := LoadPage(sp, s, file, FirstPage(s) + k);
      if one.Ok? {
        PagesAre(one.space, s, file, k + 1);
      }
    }
  }

  lemma SegmentIs(sp: Space, s: Segment, file: seq<Byte>)
    requires Words(s) && Whole(s) && |file| < WORD && Loads(s)
    ensures Passes(s, file) <==> Acceptable(s, file)
    ensures Acceptable(s, file) ==> LoadFrom(sp, s, file, 0, PageCount(s)) == LoadPages(sp, s, file, FirstPage(s), EndPage(s))
  {
    hide LoadFrom, LoadPages, PageCount;
    if Acceptable(s, file) {
      PageCountIs(s);
      PagesAre(sp, s, file, 0);
    }
  }

  /** Where no sum of a segment that loads wraps, the loader does what it is meant to: it never
      copies past the file or a frame, and it is `ElfLoad` otherwise. */
  lemma {:induction false} AllIs(sp: Space, segs: seq<Segment>, file: seq<Byte>)
    requires AllWords(segs) && |file| < WORD && forall s :: s in segs && Loads(s) ==> Whole(s)
    ensures LoadAll(sp, segs, file) == LoadSegments(sp, segs, file)
    decreases |segs|
  {
    hide LoadFrom, LoadPages, PageCount, Acceptable, Passes, Whole, Loads, Words, FirstPage, EndPage;
    if segs != [] {
      var s := segs[0];
      if !Loads(s) {
        AllIs(sp, segs[1..], file);
      } else {
        SegmentIs(sp, s, file);
        if Acceptable(s, file) {
          var one := LoadPages(sp, s, file, FirstPage(s), EndPage(s));
          if one.Ok? {
            AllIs(one.space, segs[1..], file);
          }
        }
      }
    }
  }

  lemma LoadsAsMeant(sp: Space, segs: seq<Segment>, file: seq<Byte>)
    requires AllWords(segs) && |file| < WORD && forall s :: s in segs && Loads(s) ==> Whole(s)
    ensures ElfLoadWords(sp, segs, file) == ElfLoad(sp, segs, file)
  {
    AllIs(sp, segs, file);
  }

  // ---- sums that wrap ---------------------------------------------------------------------------

  /** A segment whose file range wraps passes the tests, and its copy leaves the file. */
  lemma RangeWraps(sp: Space, file: seq<Byte>, flags: nat)
    requires 8 <= |file| < WORD && sp.supply != [] && 1 !in sp.pages
    ensures var s := Segment(PT_LOAD, flags, 8, 0x1064, WORD - 8, WORD - 8);
      Words(s) && Passes(s, file) && !Acceptable(s, file) && ElfLoadWords(sp, [s], file) == Err(Stray)
  {
    var s := Segment(PT_LOAD, flags, 8, 0x1064, WORD - 8, WORD - 8);
    assert PageCount(s) == 1;
    assert Plus(Start(s), PAGE * 0) == 0x1000;
    assert CopyFor(s, 0x1000).length == WORD - 8;
  }

  /** A segment of nearly all the address space is loaded as no page at all. */
  lemma MemoryWraps(sp: Space, file: seq<Byte>, flags: nat)
    ensures var s := Segment(PT_LOAD, flags, 0, 0, 0, WORD - 1);
      Words(s) && Acceptable(s, file) && EndPage(s) > FirstPage(s) && ElfLoadWords(sp, [s], file) == Ok(sp)
  {
    var s := Segment(PT_LOAD, flags, 0, 0, 0, WORD - 1);
    assert PageCount(s) == 0;
    assert [s][1..] == [];
    assert LoadFrom(sp, s, file, 0, 0) == Ok(sp);
    assert LoadAll(sp, [], file) == Ok(sp);
    assert s in [s] && Loads(s);
  }

  // ---- user pages -------------------------------------------------------------------------------

  const USER_PAGES: nat := 0x1_0000_0000

  lemma {:induction false} PagesOfSegments(segs: seq<Segment>, p: nat)
    ensures p in AllPages(segs) <==> exists s :: s in segs && Loads(s) && FirstPage(s) <= p < EndPage(s)
  {
    hide Loads, FirstPage, EndPage;
    if segs != [] {
      PagesOfSegments(segs[1..], p);
      assert forall s :: s in segs <==> s == segs[0] || s in segs[1..];
    }
  }

  /** Only where a segment starts is tested: the pages mapped are all in the user part of the
      address space if and only if every segment also ends there. */
  lemma UserPagesExactly(sp: Space, segs: seq<Segment>, file: seq<Byte>)
    requires ElfLoad(sp, segs, file).Ok?
    ensures var added := ElfLoad(sp, segs, file).space.pages.Keys - sp.pages.Keys;
      (forall p :: p in added ==> p < USER_PAGES) <==> (forall s :: s in segs && Loads(s) ==> EndPage(s) <= USER_PAGES)
  {
    hide LoadSegments, FirstPage, EndPage, Loads, AllPages;
    var added := ElfLoad(sp, segs, file).space.pages.Keys - sp.pages.Keys;
    LoadsExactly(sp, segs, file);
    DisjointAvoids(segs, file, sp.pages.Keys);
    assert added == AllPages(segs);
    forall s | s in segs && Loads(s) && EndPage(s) > USER_PAGES
      ensures exists p :: p in added && p >= USER_PAGES
    {
      NotEmpty(s);
      var p: nat := EndPage(s) - 1;
      PagesOfSegments(segs, p);
    }
    forall p | p in added && p >= USER_PAGES
      ensures exists s :: s in segs && Loads(s) && EndPage(s) > USER_PAGES
    {
      PagesOfSegments(segs, p);
    }
  }

  lemma NotEmpty(s: Segment)
    requires Loads(s)
    ensures FirstPage(s) < EndPage(s)
  {
  }

  /** A segment of two pages, the second of them behind the user part. */
  lemma LoadsBeyondUser(sp: Space, file: seq<Byte>, flags: nat)
    requires |sp.supply| >= 2 && USER_PAGES - 1 !in sp.pages && USER_PAGES !in sp.pages && |file| < WORD
    ensures var s := Segment(PT_LOAD, flags, 0, USER_LIMIT - PAGE, 0, 2 * PAGE);
      var r := ElfLoadWords(sp, [s], file); r.Ok? && USER_PAGES in r.space.pages
  {
    var s := Segment(PT_LOAD, flags, 0, USER_LIMIT - PAGE, 0, 2 * PAGE);
    assert FirstPage(s) == USER_PAGES - 1 && EndPage(s) == USER_PAGES + 1;
    OneSegmentLoads(sp, s, file);
    hide FirstPage, EndPage, ElfLoad, ElfLoadWords;
    LoadsAsMeant(sp, [s], file);
  }

  lemma OneSegmentLoads(sp: Space, s: Segment, file: seq<Byte>)
    requires Loads(s) && Acceptable(s, file) && EndPage(s) - FirstPage(s) <= |sp.supply|
    requires forall p :: FirstPage(s) <= p < EndPage(s) ==> p !in sp.pages
    ensures ElfLoad(sp, [s], file).Ok?
    ensures forall p :: FirstPage(s) <= p < EndPage(s) ==> p in ElfLoad(sp, [s], file).space.pages
  {
    hide Loads, Acceptable, FirstPage, EndPage, LoadPages;
    var range := Range(FirstPage(s), EndPage(s));
    assert s in [s] && [s][1..] == [];
    assert AllPages([]) == {} && AllPages([s]) == range + {} == range;
    assert Disjoint([], file, sp.pages.Keys + range) && Disjoint([s], file, sp.pages.Keys);
    hide LoadSegments, Range, AllPages, Disjoint;
    LoadsExactly(sp, [s], file);
  }
}
