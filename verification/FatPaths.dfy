/** Path strings: the image builder and the kernel's driver cut them into components on their own,
    each in its own way, and get the same ones. */
module FatPaths {
  import opened Bits

  /** Both kinds of slash separate. */
  predicate IsSeparator(b: Byte) {
    b == 47 || b == 92
  }

  // ---- the driver -----------------------------------------------------------------------------------

  function SkipSeparators(t: seq<Byte>): (r: seq<Byte>)
    ensures |r| <= |t| && (r != [] ==> !IsSeparator(r[0]))
    ensures t != [] && !IsSeparator(t[0]) ==> r == t
  {
    if t != [] && IsSeparator(t[0]) then SkipSeparators(t[1..]) else t
  }

  /** The characters before the first separator. */
  function RunLength(t: seq<Byte>): (n: nat)
    ensures n <= |t| && (forall i :: 0 <= i < n ==> !IsSeparator(t[i])) && (n < |t| ==> IsSeparator(t[n]))
  {
    if t == [] || IsSeparator(t[0]) then 0 else 1 + RunLength(t[1..])
  }

  /** The components of a path. */
  function Parts(t: seq<Byte>): seq<seq<Byte>>
    decreases |t|
  {
    var u := SkipSeparators(t);
    if u == [] then [] else [u[..RunLength(u)]] + Parts(u[RunLength(u)..])
  }

  /** The driver's loop: one component after another. How much of each is compared is the search's
      affair. */
  method ReadComponents(path: seq<Byte>) returns (parts: seq<seq<Byte>>)
    ensures parts == Parts(path)
  {
    hide Parts, RunLength;
    parts := [];
    var cursor := SkipAt(path, 0);
    assert path[0..] == path;
    ghost var all := Parts(path);
    NoParts();
    assert [] + all == all;
    while cursor < |path|
      invariant cursor <= |path| && (cursor < |path| ==> !IsSeparator(path[cursor]))
      invariant all == parts + Parts(path[cursor..])
      decreases |path| - cursor
    {
      ghost var t := path[cursor..];
      FirstPart(t);
      var component;
      component, cursor := ReadComponent(path, cursor);
      ghost var rest := path[cursor..];
      assert t[RunLength(t)..] == rest;
      cursor := SkipAt(path, cursor);
      Appended(parts, component, Parts(path[cursor..]));
      parts := parts + [component];
    }
    assert path[cursor..] == [];
    assert parts + [] == parts;
  }

  lemma NoParts()
    ensures Parts([]) == []
  {
  }

  lemma Appended(parts: seq<seq<Byte>>, component: seq<Byte>, more: seq<seq<Byte>>)
    ensures parts + ([component] + more) == parts + [component] + more
  {
  }

  method ReadComponent(path: seq<Byte>, from: nat) returns (component: seq<Byte>, cursor: nat)
    requires from < |path| && !IsSeparator(path[from])
    ensures cursor == from + RunLength(path[from..]) <= |path| && from < cursor
    ensures component == path[from..][..RunLength(path[from..])]
  {
    component := [];
    cursor := from;
    assert path[from..from] == [];
    while cursor < |path| && !IsSeparator(path[cursor])
      invariant from <= cursor <= |path| && cursor - from + RunLength(path[cursor..]) == RunLength(path[from..])
      invariant component == path[from..cursor]
    {
      assert path[cursor..][1..] == path[cursor + 1..];
      component := component + [path[cursor]];
      cursor := cursor + 1;
    }
    assert path[from..][..cursor - from] == path[from..cursor];
  }

  method SkipAt(path: seq<Byte>, start: nat) returns (cursor: nat)
    requires start <= |path|
    ensures start <= cursor <= |path| && path[cursor..] == SkipSeparators(path[start..])
    ensures Parts(path[cursor..]) == Parts(path[start..])
  {
    cursor := start;
    while cursor < |path| && IsSeparator(path[cursor])
      invariant start <= cursor <= |path| && SkipSeparators(path[cursor..]) == SkipSeparators(path[start..])
    {
      assert path[cursor..][1..] == path[cursor + 1..];
      cursor := cursor + 1;
    }
    SkipsKeepParts(path[start..]);
  }

  lemma SkipsKeepParts(t: seq<Byte>)
    ensures Parts(SkipSeparators(t)) == Parts(t)
  {
    var u := SkipSeparators(t);
    assert SkipSeparators(u) == u;
  }

  lemma FirstPart(t: seq<Byte>)
    requires t != [] && !IsSeparator(t[0])
    ensures Parts(t) == [t[..RunLength(t)]] + Parts(t[RunLength(t)..])
  {
    assert SkipSeparators(t) == t;
  }

  // ---- the builder ----------------------------------------------------------------------------------

  /** All the pieces between separators, empty ones included. */
  function Split(t: seq<Byte>): (r: seq<seq<Byte>>)
    ensures r != []
    decreases |t|
  {
    var n := RunLength(t);
    if n == |t| then [t] else [t[..n]] + Split(t[n + 1..])
  }

  function NonEmpty(parts: seq<seq<Byte>>): seq<seq<Byte>> {
    if parts == [] then []
    else (if parts[0] == [] then [] else [parts[0]]) + NonEmpty(parts[1..])
  }

  /** The directories `mkdir` makes of a path. */
  function MkdirParts(t: seq<Byte>): seq<seq<Byte>> {
    NonEmpty(Split(t))
  }

  /** The place of the last separator, or nothing. */
  function LastSeparator(t: seq<Byte>): (k: int)
    ensures -1 <= k < |t| && (k >= 0 ==> IsSeparator(t[k])) && forall i :: k < i < |t| ==> !IsSeparator(t[i])
  {
    if t == [] then -1
    else if IsSeparator(t[|t| - 1]) then |t| - 1
    else LastSeparator(t[..|t| - 1])
  }

  /** The directory and the name `write_file` makes of a path. */
  function FileParent(t: seq<Byte>): seq<Byte> {
    var u := SkipSeparators(t);
    var k := LastSeparator(u);
    if k < 0 then [] else u[..k]
  }

  function FileName(t: seq<Byte>): seq<Byte> {
    var u := SkipSeparators(t);
    u[LastSeparator(u) + 1..]
  }

  // ---- they agree -------------------------------------------------------------------------------------

  /** The builder's split gives the driver's components. */
  lemma {:induction false} SplitIsParts(t: seq<Byte>)
    ensures MkdirParts(t) == Parts(t)
    decreases |t|
  {
    var n := RunLength(t);
    if n == |t| {
      NonEmptyOne(t);
      if t != [] {
        assert t[n..] == [] && t[..n] == t;
      }
    } else {
      var more := t[n + 1..];
      SplitIsParts(more);
      NonEmptyCons(t[..n], Split(more));
      assert t[n..][1..] == more;
      assert SkipSeparators(t[n..]) == SkipSeparators(more);
      SkipsKeepParts(t[n..]);
      SkipsKeepParts(more);
      if n == 0 {
        assert t[n..] == t;
      } else {
        assert SkipSeparators(t) == t;
      }
    }
  }

  lemma NonEmptyOne(t: seq<Byte>)
    ensures NonEmpty([t]) == if t == [] then [] else [t]
  {
    assert [t][1..] == [];
  }

  lemma NonEmptyCons(t: seq<Byte>, parts: seq<seq<Byte>>)
    ensures NonEmpty([t] + parts) == (if t == [] then [] else [t]) + NonEmpty(parts)
  {
    assert ([t] + parts)[1..] == parts;
  }

  /** A separator and a last component behind a path add that component. */
  lemma {:induction false} PartsSnoc(t: seq<Byte>, slash: Byte, name: seq<Byte>)
    requires IsSeparator(slash) && name != [] && forall i :: 0 <= i < |name| ==> !IsSeparator(name[i])
    ensures Parts(t + [slash] + name) == Parts(t) + [name]
    decreases |t|
  {
    var all := t + [slash] + name;
    if t == [] {
      assert all == [slash] + name && all[1..] == name;
      assert SkipSeparators(all) == name && SkipSeparators(name) == name;
      WholeComponent(name);
    } else if IsSeparator(t[0]) {
      assert all[1..] == t[1..] + [slash] + name;
      PartsSnoc(t[1..], slash, name);
      assert SkipSeparators(all) == SkipSeparators(all[1..]) && SkipSeparators(t) == SkipSeparators(t[1..]);
    } else {
      var n := RunLength(t);
      ComponentOf(t, [slash] + name);
      assert all == t + ([slash] + name);
      assert all[..n] == t[..n] && all[n..] == t[n..] + [slash] + name;
      PartsSnoc(t[n..], slash, name);
      assert SkipSeparators(all) == all && SkipSeparators(t) == t;
    }
  }

  lemma {:induction false} WholeComponent(name: seq<Byte>)
    requires name != [] && forall i :: 0 <= i < |name| ==> !IsSeparator(name[i])
    ensures RunLength(name) == |name| && Parts(name) == [name]
  {
    var n := RunLength(name);
    assert SkipSeparators(name) == name;
    assert name[n..] == [] && name[..n] == name;
  }

  lemma {:induction false} ComponentOf(t: seq<Byte>, rest: seq<Byte>)
    requires rest != [] && IsSeparator(rest[0])
    ensures RunLength(t + rest) == RunLength(t)
  {
    if t == [] {
      assert t + rest == rest;
    } else if !IsSeparator(t[0]) {
      assert (t + rest)[1..] == t[1..] + rest;
      ComponentOf(t[1..], rest);
    }
  }

  /** Whatever separators it has: a path that names a file means the same components to
      `write_file` and to the driver. */
  lemma PathsAgree(t: seq<Byte>)
    requires FileName(t) != []
    ensures MkdirParts(FileParent(t)) + [FileName(t)] == Parts(t)
  {
    hide *;
    SkipsKeepParts(t);
    SplitIsParts(FileParent(t));
    var u, k := FileIs(t);
    CutAtLast(u, k, FileParent(t), FileName(t));
  }

  lemma FileIs(t: seq<Byte>) returns (u: seq<Byte>, k: int)
    ensures u == SkipSeparators(t) && IsLastCut(u, k, FileParent(t), FileName(t))
  {
    u := SkipSeparators(t);
    k := LastSeparator(u);
  }

  /** `u` cut at its last separator, if any. */
  predicate IsLastCut(u: seq<Byte>, k: int, parent: seq<Byte>, name: seq<Byte>) {
    && -1 <= k < |u| && (k >= 0 ==> IsSeparator(u[k])) && (forall i :: k < i < |u| ==> !IsSeparator(u[i]))
    && parent == (if k < 0 then [] else u[..k]) && name == u[k + 1..]
  }

  lemma CutAtLast(u: seq<Byte>, k: int, parent: seq<Byte>, name: seq<Byte>)
    requires IsLastCut(u, k, parent, name) && name != []
    ensures Parts(parent) + [name] == Parts(u)
  {
    NoSeparatorIn(u, k);
    hide Parts, IsSeparator;
    if k < 0 {
      assert name == u;
      NoParts();
      WholeComponent(u);
      assert [] + [u] == [u];
    } else {
      assert u == u[..k] + [u[k]] + name;
      PartsSnoc(u[..k], u[k], name);
    }
  }

  lemma NoSeparatorIn(u: seq<Byte>, k: int)
    requires -1 <= k < |u| && forall i :: k < i < |u| ==> !IsSeparator(u[i])
    ensures var name := u[k + 1..]; forall i :: 0 <= i < |name| ==> !IsSeparator(name[i])
  {
    hide IsSeparator;
  }
}
