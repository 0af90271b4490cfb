/** Copying into memory, shared by the models that do it. */
module Memory {

  /** Copies `s` to dst[at..]. */
  method CopyIn<T>(dst: array<T>, at: nat, s: seq<T>)
    requires at + |s| <= dst.Length
    modifies dst
    ensures dst[..] == old(dst[..at]) + s + old(dst[at + |s|..])
  {
    for i := 0 to |s|
      invariant dst[..] == old(dst[..at]) + s[..i] + old(dst[at + i..])
    {
      dst[at + i] := s[i];
    }
  }
}
