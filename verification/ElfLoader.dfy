/** The loader as it runs, in 64-bit arithmetic: frame by frame, each page mapped and then filled
    with the part of the file that falls on it. */
module ElfLoader {
  import opened Bits
  import opened ElfModel
  import opened ElfWords

  class AddressSpace {
    var pages: map<nat, Mapping>
    var memory: map<nat, seq<Byte>>
    var supply: seq<nat>

    function View(): Space
      reads this
    {
      Space(pages, memory, supply)
    }

    /** What a page of the segment may be used for. */
    method SegmentFlags(s: Segment) returns (flags: Flags)
      ensures flags == FlagsOf(s)
    {
      flags := Flags(false, false);
      if BitAnd(s.flags, PF_W) != 0 {
        flags := flags.(writable := true);
      }
      if BitAnd(s.flags, PF_X) != 0 {
        flags := flags.(exec := true);
      }
    }

    /** Page number `k` of a segment. */
    method LoadOnePage(s: Segment, file: seq<Byte>, k: nat) returns (r: Result)
      requires Words(s)
      modifies this
      ensures r == LoadPageAt(old(View()), s, file, k)
      ensures r.Ok? ==> r.space == View()
    {
      hide CopyFor, Inside, Filled, Start, Plus;
      if supply == [] {
        return Err(NoMemory);
      }
      var frame := supply[0];
      var va := Plus(Start(s), PAGE * k);
      if va / PAGE in pages {
        return Err(Exists);
      }
      supply := supply[1..];
      var flags := SegmentFlags(s);
      pages := pages[va / PAGE := Mapping(frame, flags)];
      var inside, contents := FillPage(s, file, va);
      if !inside {
        return Err(Stray);
      }
      memory := memory[frame := contents];
      r := Ok(View());
    }

    /** A zeroed frame, and over it what the file provides for this page, unless that is to be
        copied from outside the file or to outside the frame. */
    method FillPage(s: Segment, file: seq<Byte>, pageStart: nat) returns (inside: bool, contents: seq<Byte>)
      requires Words(s) && pageStart < WORD
      ensures inside == Inside(CopyFor(s, pageStart), file)
      ensures inside ==> contents == Filled(CopyFor(s, pageStart), file)
    {
      hide ZeroPage, Plus, Minus;
      inside, contents := true, ZeroPage();
      var pageEnd := Plus(pageStart, PAGE);
      var fileEnd := Plus(s.vaddr, s.filesz);
      if pageStart < fileEnd && pageEnd > s.vaddr {
        var copyFrom := if pageStart > s.vaddr then pageStart else s.vaddr;
        var copyTo := if pageEnd < fileEnd then pageEnd else fileEnd;
        var offsetInPage := Minus(copyFrom, pageStart);
        var length := Minus(copyTo, copyFrom);
        var offsetInFile := Plus(s.offset, Minus(copyFrom, s.vaddr));
        inside := offsetInPage + length <= PAGE && offsetInFile + length <= |file|;
        if inside {
          contents := contents[..offsetInPage] + file[offsetInFile..offsetInFile + length] + contents[offsetInPage + length..];
        }
      }
    }

    /** All the pages of one segment. */
    method LoadOneSegment(s: Segment, file: seq<Byte>) returns (r: Result)
      requires Words(s)
      modifies this
      ensures r == LoadFrom(old(View()), s, file, 0, PageCount(s))
      ensures r.Ok? ==> r.space == View()
    {
      hide LoadPageAt, Plus, Minus;
      var start := s.vaddr / PAGE * PAGE;
      var end := AlignUp(Plus(s.vaddr, s.memsz));
      var n := Minus(end, start) / PAGE;
      for page := 0 to n
        invariant LoadFrom(old(View()), s, file, 0, n) == LoadFrom(View(), s, file, page, n)
      {
        var one := LoadOnePage(s, file, page);
        if one.Err? {
          return one;
        }
      }
      r := Ok(View());
    }

    /** The segment loop of `elf_load`. Where no sum of a segment wraps, the outcome is the one
        the segments' own numbers call for. */
    method Load(segs: seq<Segment>, file: seq<Byte>) returns (r: Result)
      requires AllWords(segs) && |file| < WORD
      modifies this
      ensures r == ElfLoadWords(old(View()), segs, file)
      ensures r.Ok? ==> r.space == View()
      ensures (forall s :: s in segs && Loads(s) ==> Whole(s)) ==> r == ElfLoad(old(View()), segs, file)
    {
      hide LoadFrom, Loads, Plus, PageCount, Words;
      if forall s :: s in segs && Loads(s) ==> Whole(s) {
        LoadsAsMeant(View(), segs, file);
      }
      var loaded := 0;
      assert segs[0..] == segs;
      for i := 0 to |segs|
        invariant LoadAll(old(View()), segs, file) == LoadAll(View(), segs[i..], file)
        invariant loaded > 0 <==> exists s :: s in segs[..i] && Loads(s)
      {
        var s := segs[i];
        assert segs[i..][0] == s && segs[i..][1..] == segs[i + 1..];
        assert forall x :: x in segs[..i + 1] <==> x in segs[..i] || x == s;
        if s.kind != PT_LOAD || s.memsz == 0 {
          NotLoaded(s);
          continue;
        }
        IsLoaded(s);
        if s.offset > |file| || Plus(s.offset, s.filesz) > |file| || s.filesz > s.memsz || s.vaddr / PAGE * PAGE >= USER_LIMIT {
          return Err(Invalid);
        }
        var one := LoadOneSegment(s, file);
        if one.Err? {
          return one;
        }
        loaded := loaded + 1;
      }
      assert segs[..|segs|] == segs;
      if loaded == 0 {
        return Err(Invalid);
      }
      r := Ok(View());
    }
  }

  lemma NotLoaded(s: Segment)
    requires s.kind != PT_LOAD || s.memsz == 0
    ensures !Loads(s)
  {
  }

  lemma IsLoaded(s: Segment)
    requires s.kind == PT_LOAD && s.memsz != 0
    ensures Loads(s)
  {
  }
}
