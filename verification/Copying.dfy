/** `kmemcpy` of kernel/memory/string.c: a forward byte copy inside one memory, whatever the overlap. */
module Copying {
  import opened Basics

  /** The place of `i` among the first `g` when counting starts over every `g`. */
  function Folded(i: nat, g: nat): (r: nat)
    requires 0 < g
    ensures r < g && r <= i
  {
    if i < g then i else Folded(i - g, g)
  }

  /** The byte that ends up at `d + i`: the source byte, or, when the destination starts inside the
      source, a byte of the first `d - s` source bytes, which the copy keeps repeating. */
  function CopiedByte(mem: seq<Byte>, s: nat, d: nat, i: nat): Byte
    requires s + i < |mem| && d + i < |mem|
  {
    if s < d then mem[s + Folded(i, d - s)] else mem[s + i]
  }

  /** The forward copy: every destination byte is the one `CopiedByte` names and no other byte changes. */
  method KMemCpy(mem: array<Byte>, s: nat, d: nat, bytes: int)
    requires s + bytes <= mem.Length && d + bytes <= mem.Length
    modifies mem
    ensures forall k :: 0 <= k < mem.Length ==>
      mem[k] == if d <= k < d + bytes then CopiedByte(old(mem[..]), s, d, k - d) else old(mem[k])
  {
    ghost var was := mem[..];
    var i := 0;
    while i < bytes
      invariant 0 <= i && (i <= bytes || i == 0)
      invariant forall k :: 0 <= k < mem.Length ==>
        mem[k] == if d <= k < d + i then CopiedByte(was, s, d, k - d) else was[k]
    {
      mem[d + i] := mem[s + i];
      i := i + 1;
    }
  }

  /** The destination ends up with the original source bytes. */
  ghost predicate CopiesSource(mem: seq<Byte>, s: nat, d: nat, bytes: nat)
    requires s + bytes <= |mem| && d + bytes <= |mem|
  {
    forall i :: 0 <= i < bytes ==> CopiedByte(mem, s, d, i) == mem[s + i]
  }

  /** Each source byte equals the one `g` places before it. */
  ghost predicate Repeats(mem: seq<Byte>, s: nat, bytes: nat, g: nat)
    requires s + bytes <= |mem|
  {
    forall k :: s + g <= k < s + bytes ==> mem[k] == mem[k - g]
  }

  lemma {:induction false} RepeatsFromStart(mem: seq<Byte>, s: nat, bytes: nat, g: nat, i: nat)
    requires s + bytes <= |mem| && 0 < g && Repeats(mem, s, bytes, g) && i < bytes
    ensures mem[s + i] == mem[s + Folded(i, g)]
    decreases i
  {
    if g <= i {
      RepeatsFromStart(mem, s, bytes, g, i - g);
      assert mem[s + i] == mem[s + i - g];
    }
  }

  /** Exactly when the forward copy is a true copy: the destination starts at or below the source, or the
      ranges are disjoint, or the source repeats itself at the distance between the two. */
  lemma CopyExact(mem: seq<Byte>, s: nat, d: nat, bytes: nat)
    requires s + bytes <= |mem| && d + bytes <= |mem|
    ensures CopiesSource(mem, s, d, bytes) <==> d <= s || s + bytes <= d || Repeats(mem, s, bytes, d - s)
  {
    if s < d {
      var g := d - s;
      if Repeats(mem, s, bytes, g) {
        forall i: nat | i < bytes
          ensures CopiedByte(mem, s, d, i) == mem[s + i]
        {
          RepeatsFromStart(mem, s, bytes, g, i);
        }
      }
      if CopiesSource(mem, s, d, bytes) {
        forall k | s + g <= k < s + bytes
          ensures mem[k] == mem[k - g]
        {
          var i := k - s;
          assert CopiedByte(mem, s, d, i) == mem[s + i] && CopiedByte(mem, s, d, i - g) == mem[s + (i - g)];
        }
      }
    }
  }
}
