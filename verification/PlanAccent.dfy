/** The plan badge's colour: a 32-bit string hash that picks from a fixed palette. */
module PlanAccent {
  import opened Arithmetic
  import opened Wrappers

  const TWO31 := 0x8000_0000
  const TWO32 := 0x1_0000_0000

  /** A UTF-16 code unit, as `charCodeAt` returns it. */
  type Code = c: int | 0 <= c < 0x1_0000

  /** ToInt32 of section 7.1.6 of ECMA-262, on integers. */
  function ToInt32(n: int): (r: int)
    ensures -TWO31 <= r < TWO31
  {
    var m := n % TWO32;
    if m >= TWO31 then m - TWO32 else m
  }

  /** `h << 5`. */
  function ShiftLeft5(h: int): int {
    ToInt32(ToInt32(h) * 32)
  }

  function Abs(n: int): nat {
    if n < 0 then -n else n
  }

  function Pow31(k: nat): (p: int)
    ensures p >= 1
  {
    if k == 0 then 1 else 31 * Pow31(k - 1)
  }

  /** The sum of `s[i] * 31^(|s| - 1 - i)`. */
  function Polynomial(s: seq<Code>): int {
    if s == [] then 0 else s[0] * Pow31(|s| - 1) + Polynomial(s[1..])
  }

  method HashString(s: seq<Code>) returns (r: nat)
    ensures r == Abs(ToInt32(Polynomial(s)))
  {
    var h := 0;
    assert s[..0] == [];
    for i := 0 to |s|
      invariant h == ToInt32(Polynomial(s[..i]))
    {
      OneMoreCode(s[..i], s[i]);
      assert s[..i] + [s[i]] == s[..i + 1];
      HashStep(Polynomial(s[..i]), s[i]);
      h := ShiftLeft5(h) - h + s[i];
      h := ToInt32(h);
    }
    assert s[..|s|] == s;
    r := Abs(h);
  }

  // --- Residues --------------------------------------------------------------------------------------

  /** ToInt32 is determined by the residue: any multiple of 2^32 away is the same. */
  lemma SameResidue(a: int, b: int, k: int)
    requires a == b + TWO32 * k
    ensures ToInt32(a) == ToInt32(b)
  {
    DivUnique(a, TWO32, b / TWO32 + k, b % TWO32);
  }

  lemma ResidueOf(n: int) returns (k: int)
    ensures ToInt32(n) == n + TWO32 * k
  {
    k := if n % TWO32 >= TWO31 then -(n / TWO32) - 1 else -(n / TWO32);
  }

  /** One turn of the loop is multiplication by 31 and addition, modulo 2^32. */
  lemma HashStep(p: int, c: int)
    ensures var h := ToInt32(p); ToInt32(ShiftLeft5(h) - h + c) == ToInt32(31 * p + c)
  {
    var h := ToInt32(p);
    var k := ResidueOf(p);
    var k' := ResidueOf(h);
    var j := ResidueOf(ToInt32(h) * 32);
    assert ShiftLeft5(h) - h + c == 31 * p + c + TWO32 * (31 * k + 32 * k' + j);
    SameResidue(ShiftLeft5(h) - h + c, 31 * p + c, 31 * k + 32 * k' + j);
  }

  // --- The polynomial ------------------------------------------------------------------------------------

  lemma {:induction false} PowAdds(a: nat, b: nat)
    ensures Pow31(a + b) == Pow31(a) * Pow31(b)
  {
    if a > 0 {
      PowAdds(a - 1, b);
      assert 31 * (Pow31(a - 1) * Pow31(b)) == (31 * Pow31(a - 1)) * Pow31(b);
    }
  }

  /** Concatenation shifts the first string's polynomial past the second. */
  lemma {:induction false} Concatenation(s: seq<Code>, t: seq<Code>)
    ensures Polynomial(s + t) == Polynomial(s) * Pow31(|t|) + Polynomial(t)
  {
    if s == [] {
      assert s + t == t;
    } else {
      var n := |s| - 1;
      assert (s + t)[1..] == s[1..] + t;
      Concatenation(s[1..], t);
      PowAdds(n, |t|);
      Distribute(s[0], Pow31(n), Pow31(|t|), Polynomial(s[1..]));
    }
  }

  lemma Distribute(c: int, p: int, q: int, r: int)
    ensures c * (p * q) + r * q == (c * p + r) * q
  {
  }

  /** A code counts by the power of 31 of its distance from the end; the powers begin 1, 31, 961. */
  lemma {:induction false} CodeCounts(s: seq<Code>, i: nat, c: Code)
    requires i < |s|
    ensures Polynomial(s[i := c]) == Polynomial(s) + (c - s[i]) * Pow31(|s| - 1 - i)
    ensures Pow31(0) == 1 && Pow31(1) == 31 && Pow31(2) == 961
  {
    assert Pow31(2) == 31 * Pow31(1);
    if i == 0 {
      assert s[0 := c][1..] == s[1..];
      Weight(c, s[0], Pow31(|s| - 1));
    } else {
      assert s[i := c][1..] == s[1..][i - 1 := c];
      CodeCounts(s[1..], i - 1, c);
    }
  }

  lemma Weight(c: int, d: int, p: int)
    ensures c * p == d * p + (c - d) * p
  {
  }

  lemma OneMoreCode(s: seq<Code>, c: Code)
    ensures Polynomial(s + [c]) == 31 * Polynomial(s) + c
  {
    Concatenation(s, [c]);
    assert Pow31(1) == 31 * Pow31(0);
    assert Polynomial([c]) == c * Pow31(0) + Polynomial([c][1..]);
  }

  /** The signed hash of a concatenation depends only on the signed hashes of its parts and the second's length. */
  lemma HashOfConcatenation(s: seq<Code>, t: seq<Code>)
    ensures ToInt32(Polynomial(s + t)) == ToInt32(ToInt32(Polynomial(s)) * Pow31(|t|) + ToInt32(Polynomial(t)))
  {
    Concatenation(s, t);
    var a, b, q := Polynomial(s), Polynomial(t), Pow31(|t|);
    var i := ResidueOf(a);
    var j := ResidueOf(b);
    Spread(a, TWO32, i, q);
    SameResidue(ToInt32(a) * q + ToInt32(b), a * q + b, i * q + j);
  }

  lemma Spread(a: int, m: int, i: int, q: int)
    ensures (a + m * i) * q == a * q + m * (i * q)
  {
  }

  // --- The accent --------------------------------------------------------------------------------------------

  const AUTO_ACCENTS := ["blue", "teal", "violet", "cyan", "green", "indigo", "orange", "amber"]

  method ResolvePlanAccent(key: Option<seq<Code>>, override: Option<string>) returns (accent: string)
    ensures override.Some? && override.value != "" ==> accent == override.value
    ensures (override == None || override.value == "") && (key == None || key.value == []) ==> accent == "muted"
    ensures (override == None || override.value == "") && key.Some? && key.value != [] ==>
              accent == ["blue", "teal", "violet", "cyan", "green", "indigo", "orange", "amber"][Abs(ToInt32(Polynomial(key.value))) % 8]
  {
    if override.Some? && override.value != "" {
      return override.value;
    }
    if key == None || key.value == [] {
      return "muted";
    }
    var h := HashString(key.value);
    accent := AUTO_ACCENTS[h % |AUTO_ACCENTS|];
  }

  /**
   The absolute value can leave the 32-bit range, at 2^31, but not the palette: the index is the polynomial's
   residue by 8, up to sign.
  */
  lemma AccentIndex(s: seq<Code>)
    ensures var p := Polynomial(s);
            Abs(ToInt32(p)) % 8 == (if ToInt32(p) >= 0 then p % 8 else (-p) % 8)
  {
    var p := Polynomial(s);
    var k := ResidueOf(p);
    var h := ToInt32(p);
    if h >= 0 {
      DivUnique(h, 8, p / 8 + (TWO32 / 8) * k, p % 8);
    } else {
      DivUnique(-h, 8, (-p) / 8 - (TWO32 / 8) * k, (-p) % 8);
    }
  }
}
