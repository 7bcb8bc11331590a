/**
  A .NET Guid and its default string form (`Guid.ToString()`, format "D"):
  32 lower-case hexadecimal digits in groups of 8-4-4-4-12.
 */
module Guids {
  import opened Digits

  /**
    The five printed groups: a 32-bit group, three 16-bit groups and a
    48-bit group (the last two hold the Guid's eight trailing bytes in order).
   */
  datatype Guid = Guid(a: nat, b: nat, c: nat, d: nat, e: nat)

  /** `Guid.Empty`, the value of a Guid field nobody has set. */
  const Empty := Guid(0, 0, 0, 0, 0)

  predicate Valid(g: Guid)
  {
    g.a < Pow(16, 8) && g.b < Pow(16, 4) && g.c < Pow(16, 4) && g.d < Pow(16, 4) && g.e < Pow(16, 12)
  }

  function Hex(n: nat, width: nat): (s: string)
    ensures |s| == width
  {
    FixedWidth(n, 16, width)
  }

  /** `Guid.ToString()`: xxxxxxxx-xxxx-xxxx-xxxx-xxxxxxxxxxxx */
  function GuidString(g: Guid): (s: string)
    ensures |s| == 36
    ensures s[8] == s[13] == s[18] == s[23] == '-'
  {
    Hex(g.a, 8) + "-" + Hex(g.b, 4) + "-" + Hex(g.c, 4) + "-" + Hex(g.d, 4) + "-" + Hex(g.e, 12)
  }

  /** Reads the groups back out of a Guid string. */
  function ParseGuid(s: string): Guid
    requires |s| == 36
  {
    Guid(ValueOf(s[0..8], 16), ValueOf(s[9..13], 16), ValueOf(s[14..18], 16),
         ValueOf(s[19..23], 16), ValueOf(s[24..36], 16))
  }

  /** The string form loses nothing: the Guid can be read back from it. */
  lemma GuidStringRoundTrip(g: Guid)
    requires Valid(g)
    ensures ParseGuid(GuidString(g)) == g
  {
    var s := GuidString(g);
    assert s[0..8] == Hex(g.a, 8);
    assert s[9..13] == Hex(g.b, 4);
    assert s[14..18] == Hex(g.c, 4);
    assert s[19..23] == Hex(g.d, 4);
    assert s[24..36] == Hex(g.e, 12);
    ValueOfFixedWidth(g.a, 16, 8);
    ValueOfFixedWidth(g.b, 16, 4);
    ValueOfFixedWidth(g.c, 16, 4);
    ValueOfFixedWidth(g.d, 16, 4);
    ValueOfFixedWidth(g.e, 16, 12);
  }

  /** Distinct Guids have distinct string forms. */
  lemma GuidStringInjective(g1: Guid, g2: Guid)
    requires Valid(g1) && Valid(g2) && GuidString(g1) == GuidString(g2)
    ensures g1 == g2
  {
    GuidStringRoundTrip(g1);
    GuidStringRoundTrip(g2);
  }
}
