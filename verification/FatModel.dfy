/** The file system the builder writes and the kernel reads: directories as lists of entries,
    files as bytes, both by first cluster; and what a path means in it. */
module FatModel {
  import opened Words
  import opened Options
  import opened Bits
  import opened FatNames
  import opened FatDirectories
  import opened FatDisks

  datatype Fs = Fs(tree: map<nat, seq<Rec>>, files: map<nat, seq<Byte>>)

  predicate IsDir(r: Rec) {
    !r.Named? || r.dir
  }

  /** An entry leads to what it says it does. */
  predicate Leads(fs: Fs, r: Rec) {
    if IsDir(r) then r.first in fs.tree
    else r.size > 0 ==> r.first in fs.files && |fs.files[r.first]| == r.size
  }

  ghost predicate Closed(fs: Fs) {
    && ROOT in fs.tree
    && forall k :: k in fs.tree ==> ValidRecs(fs.tree[k]) && forall r :: r in fs.tree[k] ==> Leads(fs, r)
  }

  /** Directory names are their own short names. */
  ghost predicate LegalDirs(fs: Fs) {
    forall k :: k in fs.tree ==> forall r :: r in fs.tree[k] && r.Named? && r.dir ==> Legal83(r.name)
  }

  // ---- the reader's view of a path ----------------------------------------------------------

  /** The first entry with that name, case aside. */
  function FirstNamed(rs: seq<Rec>, name: seq<Byte>): Option<Rec> {
    if rs == [] then None
    else if Upper(Listing(rs[0]).name) == Upper(name) then Some(rs[0])
    else FirstNamed(rs[1..], name)
  }

  lemma {:induction false} FirstNamedIn(rs: seq<Rec>, name: seq<Byte>)
    ensures match FirstNamed(rs, name)
      case Some(r) => r in rs && Upper(Listing(r).name) == Upper(name)
      case None => forall r :: r in rs ==> Upper(Listing(r).name) != Upper(name)
  {
    if rs != [] {
      FirstNamedIn(rs[1..], name);
    }
  }

  function Lookup(fs: Fs, dir: nat, path: seq<seq<Byte>>): Option<Rec>
    decreases |path|
  {
    if path == [] || dir !in fs.tree then None
    else match FirstNamed(fs.tree[dir], path[0])
      case None => None
      case Some(r) =>
        if |path| == 1 then Some(r) else if IsDir(r) then Lookup(fs, r.first, path[1..]) else None
  }

  function Contents(fs: Fs, r: Rec): Option<seq<Byte>> {
    if IsDir(r) then None
    else if r.size == 0 then Some([])
    else if r.first in fs.files then Some(fs.files[r.first]) else None
  }

  function ReadFs(fs: Fs, path: seq<seq<Byte>>): Option<seq<Byte>> {
    match Lookup(fs, ROOT, path)
    case None => None
    case Some(r) => Contents(fs, r)
  }

  // ---- the writer's steps -----------------------------------------------------------------------

  /** An entry goes to the end of its directory. */
  function Added(fs: Fs, dir: nat, r: Rec): Fs
    requires dir in fs.tree
  {
    fs.(tree := fs.tree[dir := fs.tree[dir] + [r]])
  }

  function WithDir(fs: Fs, c: nat, parent: nat): Fs {
    fs.(tree := fs.tree[c := [Dot(c), DotDot(parent)]])
  }

  function NewDir(fs: Fs, dir: nat, name: seq<Byte>, c: nat): Fs
    requires dir in fs.tree && c !in fs.tree
  {
    Added(WithDir(fs, c, dir), dir, Named(name, true, c, 0))
  }

  /** `mkdir` from directory `dir` on: existing directories, found by their short names, are
      entered, missing ones created. */
  ghost predicate Made(fs: Fs, dir: nat, parts: seq<seq<Byte>>, after: Fs, end: nat)
    decreases |parts|
  {
    dir in fs.tree &&
    if parts == [] then after == fs && end == dir
    else match FindRec(fs.tree[dir], Upper(parts[0]))
      case Some(r) => IsDir(r) && Made(fs, r.first, parts[1..], after, end)
      case None => exists c: nat :: MadeAt(fs, dir, parts, c, after, end)
  }

  ghost predicate MadeAt(fs: Fs, dir: nat, parts: seq<seq<Byte>>, c: nat, after: Fs, end: nat)
    requires parts != [] && dir in fs.tree
    decreases |parts|, 0
  {
    && c !in fs.tree && c < 0x1_0000_0000
    && Made(NewDir(fs, dir, parts[0], c), c, parts[1..], after, end)
  }

  /** A file's bytes, if it has any, and its entry. */
  function NewFile(fs: Fs, dir: nat, name: seq<Byte>, data: seq<Byte>, first: nat): Fs
    requires dir in fs.tree
  {
    Added(if data == [] then fs else fs.(files := fs.files[first := data]), dir, Named(name, false, first, |data|))
  }

  /** `write_file` once its directory is there: refused when the short name is taken. */
  ghost predicate Wrote(mid: Fs, dir: nat, name: seq<Byte>, data: seq<Byte>, first: nat, after: Fs) {
    && dir in mid.tree && FindRec(mid.tree[dir], Upper(name)) == None
    && (data != [] ==> first !in mid.files) && first < 0x1_0000_0000 && |data| < 0x1_0000_0000
    && after == NewFile(mid, dir, name, data, first)
  }

  // ---- nothing is lost ----------------------------------------------------------------------------

  ghost predicate Extends(a: Fs, b: Fs) {
    && (forall k :: k in a.tree ==> k in b.tree && a.tree[k] <= b.tree[k])
    && (forall k :: k in a.files ==> k in b.files && a.files[k] == b.files[k])
  }

  lemma ExtendsTrans(a: Fs, b: Fs, c: Fs)
    requires Extends(a, b) && Extends(b, c)
    ensures Extends(a, c)
  {
    forall k | k in a.tree ensures k in c.tree && a.tree[k] <= c.tree[k] {
      assert a.tree[k] <= b.tree[k] && b.tree[k] <= c.tree[k];
    }
  }

  lemma {:induction false} FirstNamedStays(rs: seq<Rec>, ss: seq<Rec>, name: seq<Byte>)
    requires rs <= ss && FirstNamed(rs, name).Some?
    ensures FirstNamed(ss, name) == FirstNamed(rs, name)
  {
    if Upper(Listing(rs[0]).name) != Upper(name) {
      FirstNamedStays(rs[1..], ss[1..], name);
    }
  }

  lemma {:induction false} LookupStays(a: Fs, b: Fs, dir: nat, path: seq<seq<Byte>>)
    requires Extends(a, b) && Lookup(a, dir, path).Some?
    ensures Lookup(b, dir, path) == Lookup(a, dir, path)
    decreases |path|
  {
    FirstNamedStays(a.tree[dir], b.tree[dir], path[0]);
    if |path| > 1 {
      LookupStays(a, b, FirstNamed(a.tree[dir], path[0]).value.first, path[1..]);
    }
  }

  /** What can be read once can be read ever after. */
  lemma ReadsStay(a: Fs, b: Fs, path: seq<seq<Byte>>)
    requires Extends(a, b) && ReadFs(a, path).Some?
    ensures ReadFs(b, path) == ReadFs(a, path)
  {
    LookupStays(a, b, ROOT, path);
  }

  // ---- each step keeps the file system closed and extends it ----------------------------------------

  lemma AddedKeeps(fs: Fs, dir: nat, r: Rec)
    requires Closed(fs) && dir in fs.tree && ValidRec(r) && Leads(fs, r)
    ensures Closed(Added(fs, dir, r)) && Extends(fs, Added(fs, dir, r))
    ensures LegalDirs(fs) && (r.Named? && r.dir ==> Legal83(r.name)) ==> LegalDirs(Added(fs, dir, r))
  {
    hide ValidRec;
    var g := Added(fs, dir, r);
    forall k, q | k in g.tree && q in g.tree[k]
      ensures Leads(g, q) && ValidRec(q)
      ensures LegalDirs(fs) && (r.Named? && r.dir ==> Legal83(r.name)) && q.Named? && q.dir ==> Legal83(q.name)
    {
      assert q in fs.tree[k] || q == r;
    }
  }

  lemma WithDirKeeps(fs: Fs, c: nat, parent: nat)
    requires Closed(fs) && c !in fs.tree && parent in fs.tree && c < 0x1_0000_0000 && parent < 0x1_0000_0000
    ensures Closed(WithDir(fs, c, parent)) && Extends(fs, WithDir(fs, c, parent))
    ensures LegalDirs(fs) ==> LegalDirs(WithDir(fs, c, parent))
  {
    var g := WithDir(fs, c, parent);
    forall k, q | k in g.tree && q in g.tree[k] ensures Leads(g, q) && ValidRec(q) {
      if k != c {
        assert q in fs.tree[k];
      }
    }
  }

  /** Cluster numbers fit the 32 bits an entry has for them. */
  ghost predicate Small(fs: Fs) {
    forall k :: k in fs.tree ==> k < 0x1_0000_0000
  }

  predicate Nameable(name: seq<Byte>) {
    Ascii(name) && 0 < |name| <= 254
  }

  predicate AllNameable(parts: seq<seq<Byte>>) {
    forall p :: p in parts ==> Nameable(p)
  }

  predicate AllLegal(parts: seq<seq<Byte>>) {
    forall p :: p in parts ==> Legal83(p)
  }

  lemma NewDirKeeps(fs: Fs, dir: nat, name: seq<Byte>, c: nat)
    requires Closed(fs) && Small(fs) && dir in fs.tree && c !in fs.tree && c < 0x1_0000_0000 && Nameable(name)
    ensures var g := NewDir(fs, dir, name, c);
      Closed(g) && Small(g) && Extends(fs, g) && c in g.tree && (LegalDirs(fs) && Legal83(name) ==> LegalDirs(g))
  {
    WithDirKeeps(fs, c, dir);
    AddedKeeps(WithDir(fs, c, dir), dir, Named(name, true, c, 0));
    ExtendsTrans(fs, WithDir(fs, c, dir), NewDir(fs, dir, name, c));
    hide Closed, Extends, LegalDirs;
  }

  lemma {:induction false} FindRecIn(rs: seq<Rec>, wanted: seq<Byte>)
    ensures match FindRec(rs, wanted)
      case Some(r) => r in rs && Key83(r) == wanted
      case None => forall r :: r in rs ==> Key83(r) != wanted
  {
    hide Key83;
    if rs != [] {
      FindRecIn(rs[1..], wanted);
    }
  }

  lemma {:induction false} MadeKeeps(fs: Fs, dir: nat, parts: seq<seq<Byte>>, after: Fs, end: nat)
    requires Closed(fs) && Small(fs) && AllNameable(parts) && Made(fs, dir, parts, after, end)
    ensures Closed(after) && Small(after) && Extends(fs, after) && end in after.tree
    ensures LegalDirs(fs) && AllLegal(parts) ==> LegalDirs(after)
    decreases |parts|
  {
    if parts != [] {
      hide Nameable, Legal83, Key83, ValidRec;
      var name := parts[0];
      FindRecIn(fs.tree[dir], Upper(name));
      match FindRec(fs.tree[dir], Upper(name))
      case Some(r) =>
        hide Closed, Extends, LegalDirs, Small;
        MadeKeeps(fs, r.first, parts[1..], after, end);
      case None =>
        var c: nat :| MadeAt(fs, dir, parts, c, after, end);
        NewDirKeeps(fs, dir, name, c);
        hide Closed, Extends, LegalDirs, Small, NewDir;
        MadeKeeps(NewDir(fs, dir, name, c), c, parts[1..], after, end);
        ExtendsTrans(fs, NewDir(fs, dir, name, c), after);
    }
  }

  lemma WroteKeeps(mid: Fs, dir: nat, name: seq<Byte>, data: seq<Byte>, first: nat, after: Fs)
    requires Closed(mid) && Small(mid) && Nameable(name) && Wrote(mid, dir, name, data, first, after)
    ensures Closed(after) && Small(after) && Extends(mid, after) && (LegalDirs(mid) ==> LegalDirs(after))
  {
    hide Nameable, Legal83;
    var g := if data == [] then mid else mid.(files := mid.files[first := data]);
    assert Closed(g) by {
      forall k, r | k in g.tree && r in g.tree[k] ensures Leads(g, r) {
        assert Leads(mid, r);
      }
    }
    assert Extends(mid, g);
    NameIsValid(name, first, |data|);
    AddedKeeps(g, dir, Named(name, false, first, |data|));
    ExtendsTrans(mid, g, after);
  }

  lemma NameIsValid(name: seq<Byte>, first: nat, size: nat)
    requires Nameable(name) && first < 0x1_0000_0000 && size < 0x1_0000_0000
    ensures ValidRec(Named(name, false, first, size)) && ValidRec(Named(name, true, first, 0))
  {
  }

  // ---- writer and reader find the same directories ------------------------------------------------------

  lemma LegalUpper(a: seq<Byte>, b: seq<Byte>)
    requires Legal83(a) && Upper(a) == Upper(b)
    ensures Legal83(b)
  {
    forall i | 0 <= i < |b| ensures LegalChar(UpperChar(b[i])) {
      assert Upper(a)[i] == Upper(b)[i];
    }
  }

  lemma DotIsNotLegal(r: Rec, name: seq<Byte>)
    requires !r.Named? && Legal83(name)
    ensures Upper(Listing(r).name) != Upper(name) && Key83(r) != Upper(name)
  {
    assert Upper(name)[0] == UpperChar(name[0]);
    assert Listing(r).name[0] == 46 && Upper(Listing(r).name)[0] == 46;
    assert ShortOf(r)[0] == 46 && ShortOf(r)[..8][0] == 46;
    StripKeepsFirst(ShortOf(r)[..8]);
    assert Name83(ShortOf(r))[0] == 46;
  }

  lemma {:induction false} StripKeepsFirst(s: seq<Byte>)
    requires s != [] && s[0] != 32
    ensures StripRight(s) != [] && StripRight(s)[0] == s[0]
  {
    if s[|s| - 1] == 32 {
      StripKeepsFirst(s[..|s| - 1]);
    }
  }

  /** An entry whose name is, case aside, a legal directory name has it as its short name. */
  lemma SameKey(r: Rec, name: seq<Byte>)
    requires Legal83(name) && Upper(Listing(r).name) == Upper(name)
    ensures Key83(r) == Upper(name) && r.Named?
  {
    if !r.Named? {
      DotIsNotLegal(r, name);
    } else {
      LegalUpper(name, r.name);
      LegalKey(r);
    }
  }

  /** The writer's search and the reader's agree on directories. */
  lemma {:induction false} SearchesAgree(rs: seq<Rec>, name: seq<Byte>)
    requires Legal83(name) && forall r :: r in rs && r.Named? && r.dir ==> Legal83(r.name)
    ensures FindRec(rs, Upper(name)) == None ==> FirstNamed(rs, name) == None
    ensures var f := FindRec(rs, Upper(name)); f.Some? && IsDir(f.value) ==> FirstNamed(rs, name) == f
  {
    if rs != [] {
      var r := rs[0];
      if Upper(Listing(r).name) == Upper(name) {
        SameKey(r, name);
      } else if Key83(r) == Upper(name) && IsDir(r) {
        if r.Named? {
          LegalKey(r);
        } else {
          DotIsNotLegal(r, name);
        }
      }
      hide Legal83, Key83, Listing;
      SearchesAgree(rs[1..], name);
    }
  }

  lemma {:induction false} FirstNamedAppend(rs: seq<Rec>, r: Rec, name: seq<Byte>)
    ensures FirstNamed(rs + [r], name) ==
      if FirstNamed(rs, name).Some? then FirstNamed(rs, name)
      else if Upper(Listing(r).name) == Upper(name) then Some(r) else None
  {
    if rs == [] {
      assert rs + [r] == [r];
    } else {
      assert (rs + [r])[1..] == rs[1..] + [r];
      FirstNamedAppend(rs[1..], r, name);
    }
  }

  /** The directory that a list of names leads to. */
  function Walk(fs: Fs, dir: nat, parts: seq<seq<Byte>>): Option<nat>
    decreases |parts|
  {
    if dir !in fs.tree then None
    else if parts == [] then Some(dir)
    else match FirstNamed(fs.tree[dir], parts[0])
      case None => None
      case Some(r) => if IsDir(r) then Walk(fs, r.first, parts[1..]) else None
  }

  lemma {:induction false} WalkThenLookup(fs: Fs, dir: nat, parts: seq<seq<Byte>>, name: seq<Byte>)
    requires Walk(fs, dir, parts).Some?
    ensures Lookup(fs, dir, parts + [name]) == Lookup(fs, Walk(fs, dir, parts).value, [name])
    decreases |parts|
  {
    if parts == [] {
      assert parts + [name] == [name];
    } else {
      assert (parts + [name])[1..] == parts[1..] + [name];
      WalkThenLookup(fs, FirstNamed(fs.tree[dir], parts[0]).value.first, parts[1..], name);
    }
  }

  lemma {:induction false} WalkStays(a: Fs, b: Fs, dir: nat, parts: seq<seq<Byte>>)
    requires Extends(a, b) && Walk(a, dir, parts).Some?
    ensures Walk(b, dir, parts) == Walk(a, dir, parts)
    decreases |parts|
  {
    if parts != [] {
      FirstNamedStays(a.tree[dir], b.tree[dir], parts[0]);
      WalkStays(a, b, FirstNamed(a.tree[dir], parts[0]).value.first, parts[1..]);
    }
  }

  /** The reader arrives at the directory that `mkdir` arrived at. */
  lemma {:induction false} MadeIsFound(fs: Fs, dir: nat, parts: seq<seq<Byte>>, after: Fs, end: nat)
    requires Closed(fs) && Small(fs) && LegalDirs(fs) && AllNameable(parts) && AllLegal(parts)
    requires Made(fs, dir, parts, after, end)
    ensures Walk(after, dir, parts) == Some(end)
    decreases |parts|
  {
    MadeKeeps(fs, dir, parts, after, end);
    if parts != [] {
      var name := parts[0];
      SearchesAgree(fs.tree[dir], name);
      hide Nameable, Legal83, Key83, ValidRec, Listing;
      match FindRec(fs.tree[dir], Upper(name))
      case Some(r) =>
        FirstNamedStays(fs.tree[dir], after.tree[dir], name);
        hide Closed, Extends, LegalDirs, Small;
        MadeIsFound(fs, r.first, parts[1..], after, end);
      case None =>
        var c: nat :| MadeAt(fs, dir, parts, c, after, end);
        NewDirIsFound(fs, dir, name, c, parts[1..], after, end);
        hide Closed, Extends, LegalDirs, Small, NewDir;
        MadeIsFound(NewDir(fs, dir, name, c), c, parts[1..], after, end);
    }
  }

  lemma NewDirIsFound(fs: Fs, dir: nat, name: seq<Byte>, c: nat, rest: seq<seq<Byte>>, after: Fs, end: nat)
    requires Closed(fs) && Small(fs) && LegalDirs(fs) && Nameable(name) && Legal83(name) && AllNameable(rest)
    requires dir in fs.tree && c !in fs.tree && c < 0x1_0000_0000 && FirstNamed(fs.tree[dir], name) == None
    requires Made(NewDir(fs, dir, name, c), c, rest, after, end)
    ensures var g := NewDir(fs, dir, name, c);
      Closed(g) && Small(g) && LegalDirs(g) && dir in after.tree
      && FirstNamed(after.tree[dir], name) == Some(Named(name, true, c, 0))
  {
    var g := NewDir(fs, dir, name, c);
    NewDirKeeps(fs, dir, name, c);
    MadeKeeps(g, c, rest, after, end);
    FirstNamedAppend(fs.tree[dir], Named(name, true, c, 0), name);
    FirstNamedStays(g.tree[dir], after.tree[dir], name);
  }

  // ---- agreement --------------------------------------------------------------------------------------

  /** A file that was just written is read back, unless its directory already had an entry of
      that name, case aside: then the reader goes on seeing the old one. */
  lemma WrittenIsRead(fs: Fs, dirs: seq<seq<Byte>>, name: seq<Byte>, data: seq<Byte>, mid: Fs, dir: nat, first: nat, after: Fs)
    requires Closed(fs) && Small(fs) && LegalDirs(fs) && AllNameable(dirs) && AllLegal(dirs) && Nameable(name)
    requires Made(fs, ROOT, dirs, mid, dir) && Wrote(mid, dir, name, data, first, after)
    ensures FirstNamed(mid.tree[dir], name) == None ==> ReadFs(after, dirs + [name]) == Some(data)
    ensures FirstNamed(mid.tree[dir], name) != None ==> Lookup(after, ROOT, dirs + [name]) == Lookup(mid, ROOT, dirs + [name])
  {
    MadeKeeps(fs, ROOT, dirs, mid, dir);
    MadeIsFound(fs, ROOT, dirs, mid, dir);
    WroteKeeps(mid, dir, name, data, first, after);
    WalkStays(mid, after, ROOT, dirs);
    WalkThenLookup(mid, ROOT, dirs, name);
    WalkThenLookup(after, ROOT, dirs, name);
    FirstNamedAppend(mid.tree[dir], Named(name, false, first, |data|), name);
  }
}
