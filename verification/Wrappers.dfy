// What the other modules share: the Option type, substring search and the range of a u32.
module Wrappers {

  datatype Option<+T> = None | Some(value: T)

  const U32_SIZE: nat := 0x1_0000_0000

  predicate PartAt(s: string, part: string, i: nat) {
    i + |part| <= |s| && s[i..i + |part|] == part
  }

  predicate Contains(s: string, part: string) {
    exists i: nat | i <= |s| :: PartAt(s, part, i)
  }

  lemma ContainsExactlyWhen(s: string, part: string)
    ensures Contains(s, part) <==> exists before, behind :: s == before + part + behind
  {
    if i: nat :| i <= |s| && PartAt(s, part, i) {
      assert s == s[..i] + part + s[i + |part|..];
    }
    if before, behind :| s == before + part + behind {
      assert PartAt(s, part, |before|);
    }
  }
}
