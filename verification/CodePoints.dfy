/** Unicode code points, the units UTF-16 writes them with, and lists of characters. */
module CodePoints {
  import opened Bytes

  predicate IsPoint(c: int) { 0 <= c <= 0x10_ffff }

  /** UTF-16: one unit, or two for code points from 0x10000 on. */
  function Units(c: int): (r: seq<u16>)
    requires IsPoint(c)
    ensures 1 <= |r| <= 2
  {
    if c < 0x1_0000 then [c]
    else
      var d := c - 0x1_0000;
      [0xd800 + d / 0x400, 0xdc00 + d % 0x400]
  }

  // ---- letters

  const Capitals := "ABCDEFGHIJKLMNOPQRSTUVWXYZ"
  const Smalls := "abcdefghijklmnopqrstuvwxyz"

  predicate IsIn(w: string, c: int) { exists i | 0 <= i < |w| :: w[i] as int == c }

  lemma CapitalsAre(c: int)
    ensures IsIn(Capitals, c) <==> 65 <= c <= 90
  {
    if 65 <= c <= 90 { Letters(c - 65); }
  }

  lemma SmallsAre(c: int)
    ensures IsIn(Smalls, c) <==> 97 <= c <= 122
  {
    if 97 <= c <= 122 { Letters(c - 97); }
  }

  lemma Letters(i: nat)
    requires i < 26
    ensures Capitals[i] as int == 65 + i && Smalls[i] as int == 97 + i
  {
  }
}
