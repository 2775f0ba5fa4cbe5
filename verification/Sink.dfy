/** The bounded output window the decoders append to. */
module Sinks {
  import opened Bits
  import opened Lz77

  /** `base[origin..origin + size]` is the window; `used` bytes of it are filled. */
  class Sink {
    const base: array<Byte>
    const origin: nat
    const size: nat
    var used: nat
    var full: bool

    ghost predicate Valid()
      reads this
    {
      origin + size <= base.Length && used <= size
    }

    ghost function Output(): (s: seq<Byte>)
      requires Valid()
      reads this, base
      ensures |s| == used
    {
      base[origin..origin + used]
    }

    constructor (base: array<Byte>, origin: nat, size: nat)
      requires origin + size <= base.Length
      ensures Valid() && this.base == base && this.origin == origin && this.size == size
      ensures used == 0 && !full && Output() == []
    {
      this.base, this.origin, this.size := base, origin, size;
      used, full := 0, false;
    }

    lemma OutputIsWindow()
      requires Valid()
      ensures Output() == base[origin..origin + used]
    {
    }

    /** Nothing outside the window changes, nor anything already put. */
    twostate predicate Appends()
      requires old(Valid())
      reads this, base
    {
      && old(used) <= used
      && forall i :: 0 <= i < base.Length && (i < origin + old(used) || origin + size <= i) ==> base[i] == old(base[i])
    }

    method PutByte(value: Byte)
      requires Valid()
      modifies this, base
      ensures Valid() && Appends()
      ensures old(used) < size ==> Output() == old(Output()) + [value] && full == old(full)
      ensures old(used) >= size ==> full && used == old(used) && base[..] == old(base[..])
    {
      if used >= size {
        full := true;
        return;
      }
      base[origin + used] := value;
      used := used + 1;
    }

    /** A back-reference, one byte at a time. */
    method Copy(distance: nat, length: nat)
      requires Valid() && !full && distance >= 1 && length >= 1
      modifies this, base
      ensures Valid() && Appends()
      ensures full <==> distance > old(used) || old(used) + length > size
      ensures !full ==> Output() == CopyBack(old(Output()), distance, length)
    {
      ghost var before := Output();
      for i := 0 to length
        invariant Valid() && Appends()
        invariant used <= old(used) + i
        invariant full <==> i > 0 && (distance > old(used) || old(used) + i > size)
        invariant !full ==> used == old(used) + i
        invariant !full && distance <= old(used) ==>
          CopyBack(before, distance, length) == CopyBack(Output(), distance, length - i)
      {
        if used < distance {
          full := true;
          return;
        }
        ghost var mid := Output();
        assert base[origin + used - distance] == mid[|mid| - distance];
        PutByte(base[origin + used - distance]);
      }
    }
  }
}
