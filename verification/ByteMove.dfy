/** rt_memmove: copying bytes between areas of one memory that may overlap. */
module ByteMove {

  type Byte = bv8

  /** Memory after the n bytes from `src` on have been copied to `dest`. */
  function Moved(memory: seq<Byte>, dest: nat, src: nat, n: nat): (m: seq<Byte>)
    requires dest + n <= |memory| && src + n <= |memory|
    ensures |m| == |memory|
  {
    memory[..dest] + memory[src..src + n] + memory[dest + n..]
  }

  /** Copies downwards when the destination starts inside the source, upwards otherwise. */
  method MemMove(memory: array<Byte>, dest: nat, src: nat, n: nat)
    requires dest + n <= memory.Length && src + n <= memory.Length
    modifies memory
    ensures memory[..] == Moved(old(memory[..]), dest, src, n)
    ensures forall i :: 0 <= i < memory.Length ==> memory[i] == if dest <= i < dest + n then old(memory[i - dest + src]) else old(memory[i])
  {
    ghost var was := memory[..];
    if src < dest < src + n {
      var k := n;
      while k > 0
        invariant 0 <= k <= n
        invariant forall i :: dest + k <= i < dest + n ==> memory[i] == was[i - dest + src]
        invariant forall i :: 0 <= i < memory.Length && !(dest + k <= i < dest + n) ==> memory[i] == was[i]
      {
        k := k - 1;
        memory[dest + k] := memory[src + k];
      }
    } else {
      var k := 0;
      while k < n
        invariant 0 <= k <= n
        invariant forall i :: dest <= i < dest + k ==> memory[i] == was[i - dest + src]
        invariant forall i :: 0 <= i < memory.Length && !(dest <= i < dest + k) ==> memory[i] == was[i]
      {
        memory[dest + k] := memory[src + k];
        k := k + 1;
      }
    }
  }
}
