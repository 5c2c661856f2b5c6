/**
 Base64.cpp: encode and decode regroup one bit string, most significant bit first, in sixes and in
 eights. Encoding fills the last six with zero bits and pads with '='; decoding reads '=' as six
 zero bits, drops an incomplete byte, and trims trailing NUL bytes.
 */
module Base64 {
  import opened Arithmetic
  import opened Bytes

  type Bit = b: nat | b < 2

  /** The low n bits of x, most significant first. */
  function ToBits(x: nat, n: nat): (bits: seq<Bit>)
    ensures |bits| == n
  {
    if n == 0 then [] else ToBits(x / 2, n - 1) + [x % 2]
  }

  function FromBits(bits: seq<Bit>): (x: nat)
  {
    if bits == [] then 0 else 2 * FromBits(bits[..|bits| - 1]) + bits[|bits| - 1]
  }

  function Pow2(n: nat): (p: nat)
    ensures p > 0
  {
    if n == 0 then 1 else 2 * Pow2(n - 1)
  }

  lemma {:induction false} FromBitsBound(bits: seq<Bit>)
    ensures FromBits(bits) < Pow2(|bits|)
  {
    if bits != [] {
      FromBitsBound(bits[..|bits| - 1]);
    }
  }

  lemma {:induction false} FromToBits(x: nat, n: nat)
    requires x < Pow2(n)
    ensures FromBits(ToBits(x, n)) == x
  {
    if n > 0 {
      FromToBits(x / 2, n - 1);
      assert ToBits(x, n)[..n - 1] == ToBits(x / 2, n - 1);
    }
  }

  lemma {:induction false} ToFromBits(bits: seq<Bit>)
    ensures ToBits(FromBits(bits), |bits|) == bits
  {
    if bits != [] {
      ToFromBits(bits[..|bits| - 1]);
      assert bits == bits[..|bits| - 1] + [bits[|bits| - 1]];
    }
  }

  predicate Below(xs: seq<nat>, bound: nat) {
    forall i :: 0 <= i < |xs| ==> xs[i] < bound
  }

  /** The values of xs, n bits each. */
  function Spread(xs: seq<nat>, n: nat): (bits: seq<Bit>)
    ensures |bits| == |xs| * n
  {
    if xs == [] then [] else
      MulStep(|xs| - 1, n);
      ToBits(xs[0], n) + Spread(xs[1..], n)
  }

  /** The values of the complete groups of n bits; bits left over are dropped. */
  function Gather(bits: seq<Bit>, n: nat): seq<nat>
    requires n > 0
    decreases |bits|
  {
    if |bits| < n then [] else [FromBits(bits[..n])] + Gather(bits[n..], n)
  }

  function ZeroBits(k: nat): seq<Bit> {
    seq(k, _ => 0)
  }

  /** How many zero bits complete the last group. */
  function Fill(bits: nat, n: nat): (k: nat)
    requires n > 0
    ensures k < n && (bits + k) % n == 0
  {
    var m := bits % n;
    assert bits == n * (bits / n) + m;
    if m == 0 then 0
    else
      MulStep(bits / n, n);
      DivUnique(bits + (n - m), n, bits / n + 1, 0);
      n - m
  }

  lemma {:induction false} GatherSpread(xs: seq<nat>, n: nat, tail: seq<Bit>)
    requires n > 0 && (Below(xs, Pow2(n))) && |tail| < n
    ensures Gather(Spread(xs, n) + tail, n) == xs
  {
    var all := Spread(xs, n) + tail;
    if xs != [] {
      MulStep(|xs| - 1, n);
      assert all[..n] == ToBits(xs[0], n);
      assert all[n..] == Spread(xs[1..], n) + tail;
      FromToBits(xs[0], n);
      GatherSpread(xs[1..], n, tail);
    }
  }

  lemma {:induction false} GatherBound(bits: seq<Bit>, n: nat)
    requires n > 0
    ensures Below(Gather(bits, n), Pow2(n))
    decreases |bits|
  {
    if |bits| >= n {
      FromBitsBound(bits[..n]);
      GatherBound(bits[n..], n);
    }
  }

  lemma {:induction false} SpreadGather(bits: seq<Bit>, n: nat)
    requires n > 0 && |bits| % n == 0
    ensures Spread(Gather(bits, n), n) == bits
    decreases |bits|
  {
    if |bits| < n {
      DivSmall(|bits|, n);
    } else {
      DivStep(|bits|, n);
      ToFromBits(bits[..n]);
      SpreadGather(bits[n..], n);
      assert bits == bits[..n] + bits[n..];
    }
  }

  lemma {:induction false} SpreadAppend(xs: seq<nat>, ys: seq<nat>, n: nat)
    ensures Spread(xs + ys, n) == Spread(xs, n) + Spread(ys, n)
  {
    if xs == [] {
      assert xs + ys == ys;
    } else {
      assert (xs + ys)[1..] == xs[1..] + ys;
      SpreadAppend(xs[1..], ys, n);
    }
  }

  lemma {:induction false} SpreadZeros(k: nat, n: nat)
    ensures Spread(seq(k, _ => 0), n) == ZeroBits(k * n)
  {
    if k > 0 {
      var zs := seq(k, _ => 0);
      assert zs[1..] == seq(k - 1, _ => 0);
      SpreadZeros(k - 1, n);
      ZeroToBits(n);
      MulStep(k - 1, n);
    }
  }

  lemma {:induction false} ZeroToBits(n: nat)
    ensures ToBits(0, n) == ZeroBits(n)
  {
    if n > 0 {
      ZeroToBits(n - 1);
    }
  }

  // ----- The alphabet of RFC 4648, section 4 -----

  function ToChar(x: nat): char
    requires x < 64
  {
    if x < 26 then 'A' + x as char
    else if x < 52 then 'a' + (x - 26) as char
    else if x < 62 then '0' + (x - 52) as char
    else if x == 62 then '+'
    else '/'
  }

  /** The six bits a character stands for; '=' counts as zero, any other character is an error. */
  function FromChar(c: char): Option<nat> {
    if 'A' <= c <= 'Z' then Some((c as int - 'A' as int) as nat)
    else if 'a' <= c <= 'z' then Some((c as int - 'a' as int + 26) as nat)
    else if '0' <= c <= '9' then Some((c as int - '0' as int + 52) as nat)
    else if c == '+' then Some(62)
    else if c == '/' then Some(63)
    else if c == '=' then Some(0)
    else None
  }

  lemma AlphabetIsInverse(x: nat)
    requires x < 64
    ensures FromChar(ToChar(x)) == Some(x) && ToChar(x) != '='
  {
  }

  function FromChars(s: string): (r: Option<seq<nat>>)
  {
    if s == [] then Some([])
    else
      var rest := FromChars(s[1..]);
      if FromChar(s[0]).Some? && rest.Some? then Some([FromChar(s[0]).value] + rest.value) else None
  }

  function ToChars(xs: seq<nat>): string
    requires Below(xs, 64)
  {
    seq(|xs|, i requires 0 <= i < |xs| => ToChar(xs[i]))
  }

  function Ints(v: seq<byte>): seq<nat> {
    seq(|v|, i requires 0 <= i < |v| => v[i] as nat)
  }

  function ToBytes(xs: seq<nat>): seq<byte>
    requires Below(xs, 256)
  {
    seq(|xs|, i requires 0 <= i < |xs| => xs[i] as byte)
  }

  function Sextets(v: seq<byte>): (xs: seq<nat>)
    ensures Below(xs, 64)
  {
    var bits := Spread(Ints(v), 8);
    GatherBound(bits + ZeroBits(Fill(|bits|, 6)), 6);
    assert Pow2(6) == 64;
    Sixes(bits)
  }

  /** The groups of six bits, the last one completed with zeros. */
  function Sixes(bits: seq<Bit>): seq<nat> {
    Gather(bits + ZeroBits(Fill(|bits|, 6)), 6)
  }

  function Encode(v: seq<byte>): string {
    ToChars(Sextets(v)) + Padding(|v|)
  }

  function Padding(n: nat): string {
    seq((3 - n % 3) % 3, _ => '=')
  }

  /**
   decode: None where the source throws on a character outside the alphabet, and for a length of
   4k + 1, where its bit iterator runs past the end of the string.
   */
  function Decode(s: string): Option<seq<byte>> {
    match FromChars(s)
    case None => None
    case Some(xs) =>
      if |s| % 4 == 1 then None
      else Some(TrimNul(Octets(xs)))
  }

  /** The complete bytes the sextets spell. */
  function Octets(xs: seq<nat>): seq<byte> {
    var octets := Gather(Spread(xs, 6), 8);
    GatherBound(Spread(xs, 6), 8);
    assert Pow2(8) == 256;
    ToBytes(octets)
  }

  function TrimNul(v: seq<byte>): seq<byte> {
    if v != [] && v[|v| - 1] == 0 then TrimNul(v[..|v| - 1]) else v
  }

  // ----- Round trip -----

  lemma {:induction false} GatherLength(bits: seq<Bit>, n: nat)
    requires n > 0
    ensures |Gather(bits, n)| == |bits| / n
    decreases |bits|
  {
    if |bits| < n {
      DivSmall(|bits|, n);
    } else {
      DivStep(|bits|, n);
      GatherLength(bits[n..], n);
    }
  }

  lemma {:induction false} FromPadding(pad: string)
    requires forall i :: 0 <= i < |pad| ==> pad[i] == '='
    ensures FromChars(pad) == Some(Nulls(|pad|))
  {
    if pad != [] {
      FromPadding(pad[1..]);
      assert FromChar(pad[0]) == Some(0);
      assert [0] + Nulls(|pad| - 1) == Nulls(|pad|);
    }
  }

  lemma {:induction false} FromToChars(xs: seq<nat>, pad: string)
    requires Below(xs, 64) && (forall i :: 0 <= i < |pad| ==> pad[i] == '=')
    ensures FromChars(ToChars(xs) + pad) == Some(xs + Nulls(|pad|))
  {
    var s := ToChars(xs) + pad;
    if xs == [] {
      assert s == pad && xs + Nulls(|pad|) == Nulls(|pad|);
      FromPadding(pad);
    } else {
      AlphabetIsInverse(xs[0]);
      assert s[0] == ToChar(xs[0]);
      assert s[1..] == ToChars(xs[1..]) + pad;
      FromToChars(xs[1..], pad);
      assert xs + Nulls(|pad|) == [xs[0]] + (xs[1..] + Nulls(|pad|));
    }
  }

  /** The encoding has four characters for every three bytes begun, and the '=' of section 4 of RFC 4648. */
  lemma EncodedLength(v: seq<byte>)
    ensures |Encode(v)| == (|v| + 2) / 3 * 4
    ensures |Sextets(v)| == |Encode(v)| - |Padding(|v|)|
    ensures |Padding(|v|)| == if |v| % 3 == 0 then 0 else 3 - |v| % 3
  {
    var bits := Spread(Ints(v), 8);
    GatherLength(bits + ZeroBits(Fill(|bits|, 6)), 6);
    FillOfBytes(|v|);
  }

  lemma FillOfBytes(n: nat)
    ensures (8 * n + Fill(8 * n, 6)) / 6 == (n + 2) / 3 * 4 - (3 - n % 3) % 3
  {
    var q, r := n / 3, n % 3;
    DivUnique(8 * n, 6, 4 * q + r, 2 * r);
    DivUnique(8 * n + Fill(8 * n, 6), 6, 4 * q + (if r == 0 then 0 else r + 1), 0);
    DivUnique(n + 2, 3, if r == 0 then q else q + 1, if r == 0 then 2 else r - 1);
  }

  /** Decoding an encoding restores every byte string up to its trailing NULs, at all three residues. */
  lemma DecodeEncode(v: seq<byte>)
    ensures Decode(Encode(v)) == Some(TrimNul(v))
  {
    var pads := |Padding(|v|)|;
    FromToChars(Sextets(v), Padding(|v|));
    LengthIsWhole(v);
    DecodeBySextets(Encode(v), Sextets(v) + Nulls(pads));
    OctetsOfEncoding(v, pads);
    TrimZeros(v, pads);
  }

  lemma LengthIsWhole(v: seq<byte>)
    ensures |Encode(v)| % 4 == 0
  {
    EncodedLength(v);
    LessThanFour(|Encode(v)|, (|v| + 2) / 3, 0);
  }

  lemma LessThanFour(n: nat, q: nat, pads: nat)
    requires n == q * 4 - pads && pads <= 2
    ensures n % 4 == (4 - pads) % 4
  {
  }

  lemma DecodeBySextets(s: string, xs: seq<nat>)
    requires FromChars(s) == Some(xs) && |s| % 4 != 1
    ensures Decode(s) == Some(TrimNul(Octets(xs)))
  {
  }

  lemma OctetsOfEncoding(v: seq<byte>, pads: nat)
    requires pads == |Padding(|v|)|
    ensures Octets(Sextets(v) + Nulls(pads)) == v + Zeros(pads)
  {
    PaddedSextets(v, pads);
    var octets := Ints(v) + Nulls(pads);
    assert octets == Ints(v + Zeros(pads));
    assert Pow2(8) == 256;
    GatherSpread(octets, 8, []);
    assert Spread(octets, 8) + [] == Spread(octets, 8);
  }

  function Nulls(k: nat): seq<nat> {
    seq(k, _ => 0)
  }

  /** The sextets and one zero sextet for each '=' spell the bits of the input and as many zero bytes. */
  lemma PaddedSextets(v: seq<byte>, pads: nat)
    requires pads == |Padding(|v|)|
    ensures Spread(Sextets(v) + Nulls(pads), 6) == Spread(Ints(v) + Nulls(pads), 8)
  {
    var bits := Spread(Ints(v), 8);
    var fill := Fill(|bits|, 6);
    EncodedLength(v);
    SpreadAppend(Sextets(v), Nulls(pads), 6);
    SpreadZeros(pads, 6);
    SpreadGather(bits + ZeroBits(fill), 6);
    SpreadAppend(Ints(v), Nulls(pads), 8);
    SpreadZeros(pads, 8);
    assert fill + pads * 6 == pads * 8;
    assert (bits + ZeroBits(fill)) + ZeroBits(pads * 6) == bits + ZeroBits(pads * 8);
  }

  lemma {:induction false} TrimZeros(v: seq<byte>, n: nat)
    ensures TrimNul(v + Zeros(n)) == TrimNul(v)
  {
    if n == 0 {
      assert v + Zeros(0) == v;
    } else {
      assert (v + Zeros(n))[..|v| + n - 1] == v + Zeros(n - 1);
      TrimZeros(v, n - 1);
    }
  }

  /** decode undoes encode exactly on the byte strings that do not end in NUL. */
  lemma RoundTripIff(v: seq<byte>)
    ensures Decode(Encode(v)) == Some(v) <==> v == [] || v[|v| - 1] != 0
  {
    DecodeEncode(v);
    if v != [] && v[|v| - 1] == 0 {
      TrimShortens(v[..|v| - 1]);
    }
  }

  lemma {:induction false} TrimShortens(v: seq<byte>)
    ensures |TrimNul(v)| <= |v| && TrimNul(v) <= v
    ensures forall i :: |TrimNul(v)| <= i < |v| ==> v[i] == 0
  {
    if v != [] && v[|v| - 1] == 0 {
      TrimShortens(v[..|v| - 1]);
    }
  }

  // ----- The groups of RFC 4648, section 4 -----

  /** x without its low k bits, and those bits. */
  function High(x: nat, k: nat): nat {
    if k == 0 then x else High(x / 2, k - 1)
  }

  function Low(x: nat, k: nat): nat {
    if k == 0 then 0 else 2 * Low(x / 2, k - 1) + x % 2
  }

  lemma {:induction false} SplitBits(x: nat, n: nat, k: nat)
    requires k <= n
    ensures ToBits(x, n) == ToBits(High(x, k), n - k) + ToBits(x, k)
  {
    if k > 0 {
      SplitBits(x / 2, n - 1, k - 1);
    }
  }

  lemma {:induction false} FromLowBits(x: nat, k: nat)
    ensures FromBits(ToBits(x, k)) == Low(x, k)
  {
    if k > 0 {
      FromLowBits(x / 2, k - 1);
      assert ToBits(x, k)[..k - 1] == ToBits(x / 2, k - 1);
    }
  }

  lemma EvenShifts(x: nat)
    ensures High(x, 2) == x / 4 && High(x, 4) == x / 16 && High(x, 6) == x / 64
    ensures Low(x, 2) == x % 4 && Low(x, 4) == x % 16 && Low(x, 6) == x % 64
  {
    TwoMore(x, 0);
    TwoMore(x, 2);
    TwoMore(x, 4);
    TwoMore(x / 4, 0);
    TwoMore(x / 4, 2);
    TwoMore(x / 16, 0);
    assert x / 4 / 4 == x / 16 && x / 16 / 4 == x / 64;
  }

  lemma TwoMore(x: nat, k: nat)
    ensures High(x, k + 2) == High(x / 4, k)
    ensures Low(x, k + 2) == 4 * Low(x / 4, k) + x % 4
  {
    assert x / 2 / 2 == x / 4;
    assert High(x, k + 2) == High(x / 2, k + 1) == High(x / 2 / 2, k);
    assert Low(x, k + 2) == 2 * Low(x / 2, k + 1) + x % 2;
    assert Low(x / 2, k + 1) == 2 * Low(x / 2 / 2, k) + x / 2 % 2;
  }

  lemma {:induction false} FromJoined(a: seq<Bit>, b: seq<Bit>)
    ensures FromBits(a + b) == FromBits(a) * Pow2(|b|) + FromBits(b)
  {
    if b == [] {
      assert a + b == a;
    } else {
      var n := |b| - 1;
      var init, last := b[..n], b[n];
      FromJoined(a, init);
      FromBitsSnoc(a + init, last);
      FromBitsSnoc(init, last);
      assert a + b == (a + init) + [last] && b == init + [last];
      Doubled(FromBits(a), Pow2(n), FromBits(init), last);
    }
  }

  lemma FromBitsSnoc(bits: seq<Bit>, bit: Bit)
    ensures FromBits(bits + [bit]) == 2 * FromBits(bits) + bit
  {
    assert (bits + [bit])[..|bits|] == bits;
  }

  lemma Doubled(x: nat, p: nat, y: nat, bit: nat)
    ensures 2 * (x * p + y) + bit == x * (2 * p) + (2 * y + bit)
  {
  }

  lemma PowersUpTo8()
    ensures Pow2(0) == 1 && Pow2(1) == 2 && Pow2(2) == 4 && Pow2(3) == 8 && Pow2(4) == 16
    ensures Pow2(5) == 32 && Pow2(6) == 64 && Pow2(7) == 128 && Pow2(8) == 256
  {
  }

  /** A group of three bytes becomes four sextets, and the rest is encoded on its own. */
  lemma EncodeTriple(a: byte, b: byte, c: byte, rest: seq<byte>)
    ensures Sextets([a, b, c] + rest)
            == [a as nat / 4, a as nat % 4 * 16 + b as nat / 16, b as nat % 16 * 4 + c as nat / 64, c as nat % 64]
               + Sextets(rest)
  {
    var head := TripleHead(a, b, c, rest);
    SixesOfTriple(head, Spread(Ints(rest), 8));
  }

  lemma TripleHead(a: byte, b: byte, c: byte, rest: seq<byte>) returns (head: seq<Bit>)
    ensures |head| == 24 && Spread(Ints([a, b, c] + rest), 8) == head + Spread(Ints(rest), 8)
    ensures FromBits(head[..6]) == a as nat / 4 && FromBits(head[6..12]) == a as nat % 4 * 16 + b as nat / 16
    ensures FromBits(head[12..18]) == b as nat % 16 * 4 + c as nat / 64 && FromBits(head[18..]) == c as nat % 64
  {
    head := ToBits(a as nat, 8) + ToBits(b as nat, 8) + ToBits(c as nat, 8);
    TripleBits(a, b, c, rest);
    TripleGroups(a as nat, b as nat, c as nat);
  }

  lemma SixesOfTriple(head: seq<Bit>, tail: seq<Bit>)
    requires |head| == 24
    ensures Sixes(head + tail)
            == [FromBits(head[..6]), FromBits(head[6..12]), FromBits(head[12..18]), FromBits(head[18..])] + Sixes(tail)
  {
    FillSame(|tail|);
    var fill := ZeroBits(Fill(|tail|, 6));
    assert (head + tail) + fill == head + (tail + fill);
    GatherFour(head, tail + fill);
  }

  lemma TripleBits(a: byte, b: byte, c: byte, rest: seq<byte>)
    ensures Spread(Ints([a, b, c] + rest), 8)
            == (ToBits(a as nat, 8) + ToBits(b as nat, 8) + ToBits(c as nat, 8)) + Spread(Ints(rest), 8)
  {
    var triple := [a as nat, b as nat, c as nat];
    assert Ints([a, b, c] + rest) == triple + Ints(rest);
    SpreadAppend(triple, Ints(rest), 8);
    SpreadThree(a as nat, b as nat, c as nat);
  }

  lemma FillSame(n: nat)
    ensures Fill(24 + n, 6) == Fill(n, 6)
  {
  }

  lemma SpreadThree(x: nat, y: nat, z: nat)
    ensures Spread([x, y, z], 8) == ToBits(x, 8) + ToBits(y, 8) + ToBits(z, 8)
  {
    SpreadAppend([x], [y, z], 8);
    SpreadAppend([y], [z], 8);
    assert [x, y, z] == [x] + [y, z] && [y, z] == [y] + [z];
    SpreadOne(x);
    SpreadOne(y);
    SpreadOne(z);
  }

  lemma SpreadOne(x: nat)
    ensures Spread([x], 8) == ToBits(x, 8)
  {
    assert [x][1..] == [];
  }

  lemma GatherFour(head: seq<Bit>, tail: seq<Bit>)
    requires |head| == 24
    ensures Gather(head + tail, 6)
            == [FromBits(head[..6]), FromBits(head[6..12]), FromBits(head[12..18]), FromBits(head[18..])]
               + Gather(tail, 6)
  {
    var g0 := head + tail;
    var g1, g2, g3 := g0[6..], g0[12..], g0[18..];
    assert g0[..6] == head[..6] && g1[..6] == head[6..12] && g2[..6] == head[12..18] && g3[..6] == head[18..];
    assert g1[6..] == g2 && g2[6..] == g3 && g3[6..] == tail;
    assert Gather(g3, 6) == [FromBits(head[18..])] + Gather(tail, 6);
    assert Gather(g2, 6) == [FromBits(head[12..18])] + Gather(g3, 6);
    assert Gather(g1, 6) == [FromBits(head[6..12])] + Gather(g2, 6);
    assert Gather(g0, 6) == [FromBits(head[..6])] + Gather(g1, 6);
  }

  lemma TripleGroups(x: nat, y: nat, z: nat)
    requires x < 256 && y < 256 && z < 256
    ensures var head := ToBits(x, 8) + ToBits(y, 8) + ToBits(z, 8);
            FromBits(head[..6]) == x / 4 && FromBits(head[6..12]) == x % 4 * 16 + y / 16
            && FromBits(head[12..18]) == y % 16 * 4 + z / 64 && FromBits(head[18..]) == z % 64
  {
    var head := ToBits(x, 8) + ToBits(y, 8) + ToBits(z, 8);
    PowersUpTo8();
    HeadSlices(x, y, z);
    EvenShifts(x);
    EvenShifts(y);
    EvenShifts(z);
    FromToBits(x / 4, 6);
    Joined(x, 2, y / 16, 4);
    Joined(y, 4, z / 64, 2);
    FromLowBits(z, 6);
  }

  lemma HeadSlices(x: nat, y: nat, z: nat)
    ensures var head := ToBits(x, 8) + ToBits(y, 8) + ToBits(z, 8);
            head[..6] == ToBits(x / 4, 6) && head[6..12] == ToBits(x, 2) + ToBits(y / 16, 4)
            && head[12..18] == ToBits(y, 4) + ToBits(z / 64, 2) && head[18..] == ToBits(z, 6)
  {
    ByteSplit(x);
    ByteSplit(y);
    ByteSplit(z);
    Cut24(ToBits(x / 4, 6), ToBits(x, 2), ToBits(y / 16, 4), ToBits(y, 4), ToBits(z / 64, 2), ToBits(z, 6));
  }

  lemma Cut24(a: seq<Bit>, b: seq<Bit>, c: seq<Bit>, d: seq<Bit>, e: seq<Bit>, f: seq<Bit>)
    requires |a| == 6 && |b| == 2 && |c| == 4 && |d| == 4 && |e| == 2 && |f| == 6
    ensures var head := (a + b) + (c + d) + (e + f);
            head[..6] == a && head[6..12] == b + c && head[12..18] == d + e && head[18..] == f
  {
  }

  lemma ByteSplit(x: nat)
    ensures ToBits(x, 8) == ToBits(x / 4, 6) + ToBits(x, 2)
    ensures ToBits(x, 8) == ToBits(x / 16, 4) + ToBits(x, 4)
    ensures ToBits(x, 8) == ToBits(x / 64, 2) + ToBits(x, 6)
  {
    EvenShifts(x);
    SplitBits(x, 8, 2);
    SplitBits(x, 8, 4);
    SplitBits(x, 8, 6);
  }

  /** The low i bits of a followed by the j bits of b. */
  lemma Joined(a: nat, i: nat, b: nat, j: nat)
    requires b < Pow2(j)
    ensures FromBits(ToBits(a, i) + ToBits(b, j)) == Low(a, i) * Pow2(j) + b
  {
    FromJoined(ToBits(a, i), ToBits(b, j));
    FromLowBits(a, i);
    FromToBits(b, j);
  }

  /**
   One or two bytes at the end are encoded like a group filled up with zero bytes, without the sextets
   '=' stands for.
   */
  lemma EncodeShortGroup(a: byte, b: byte)
    ensures Sextets([a]) == [a as nat / 4, a as nat % 4 * 16]
    ensures Sextets([a, b]) == [a as nat / 4, a as nat % 4 * 16 + b as nat / 16, b as nat % 16 * 4]
  {
    EncodeOne(a);
    EncodeTwo(a, b);
  }

  lemma EncodeOne(a: byte)
    ensures Sextets([a]) == [a as nat / 4, a as nat % 4 * 16]
  {
    var xs := [a as nat / 4, a as nat % 4 * 16, 0, 0];
    SextetsPrefix([a], 2);
    EncodeTriple(a, 0, 0, []);
    assert [a] + Zeros(2) == [a, 0, 0] + [];
    NoSextets();
    EncodedLength([a]);
    assert Sextets([a]) + Nulls(2) == xs;
    assert Sextets([a]) == (Sextets([a]) + Nulls(2))[..2];
    assert xs[..2] == [a as nat / 4, a as nat % 4 * 16];
  }

  lemma EncodeTwo(a: byte, b: byte)
    ensures Sextets([a, b]) == [a as nat / 4, a as nat % 4 * 16 + b as nat / 16, b as nat % 16 * 4]
  {
    var xs := [a as nat / 4, a as nat % 4 * 16 + b as nat / 16, b as nat % 16 * 4, 0];
    SextetsPrefix([a, b], 1);
    EncodeTriple(a, b, 0, []);
    assert [a, b] + Zeros(1) == [a, b, 0] + [];
    NoSextets();
    EncodedLength([a, b]);
    assert Sextets([a, b]) + Nulls(1) == xs;
    assert Sextets([a, b]) == (Sextets([a, b]) + Nulls(1))[..3];
    assert xs[..3] == [a as nat / 4, a as nat % 4 * 16 + b as nat / 16, b as nat % 16 * 4];
  }

  lemma NoSextets()
    ensures Sextets([]) == []
  {
    EncodedLength([]);
  }

  lemma SextetsPrefix(v: seq<byte>, pads: nat)
    requires pads == |Padding(|v|)|
    ensures Sextets(v) + Nulls(pads) == Sextets(v + Zeros(pads))
  {
    PaddedSextets(v, pads);
    var bits := Spread(Ints(v) + Nulls(pads), 8);
    assert Ints(v) + Nulls(pads) == Ints(v + Zeros(pads));
    assert Fill(|bits|, 6) == 0;
    assert bits + ZeroBits(0) == bits;
    assert Pow2(6) == 64;
    GatherSpread(Sextets(v) + Nulls(pads), 6, []);
    assert bits + [] == bits;
  }

  // ----- Characters -----

  const UPPER := "ABCDEFGHIJKLMNOPQRSTUVWXYZ"
  const LOWER := "abcdefghijklmnopqrstuvwxyz"
  const DIGITS := "0123456789"
  const ALPHABET := UPPER + LOWER + DIGITS + "+/"

  lemma UpperRange(x: nat)
    requires x < 26
    ensures |UPPER| == 26 && UPPER[x] == ToChar(x)
  {
  }

  lemma LowerRange(x: nat)
    requires x < 26
    ensures |LOWER| == 26 && LOWER[x] == ToChar(26 + x)
  {
  }

  lemma DigitRange(x: nat)
    requires x < 10
    ensures |DIGITS| == 10 && DIGITS[x] == ToChar(52 + x)
  {
  }

  lemma AlphabetIsStandard(x: nat)
    requires x < 64
    ensures |ALPHABET| == 64 && ToChar(x) == ALPHABET[x]
  {
    Lengths();
    InOneOfFour(UPPER, LOWER, DIGITS, "+/", x);
    if x < 26 {
      UpperRange(x);
    } else if x < 52 {
      LowerRange(x - 26);
    } else if x < 62 {
      DigitRange(x - 52);
    }
  }

  lemma Lengths()
    ensures |UPPER| == 26 && |LOWER| == 26 && |DIGITS| == 10
  {
  }

  lemma InOneOfFour(a: string, b: string, c: string, d: string, i: nat)
    requires |a| == 26 && |b| == 26 && |c| == 10 && |d| == 2 && i < 64
    ensures |a + b + c + d| == 64
    ensures (a + b + c + d)[i]
            == if i < 26 then a[i] else if i < 52 then b[i - 26] else if i < 62 then c[i - 52] else d[i - 62]
  {
  }

  /** The characters of an encoding, group by group, '=' included. */
  lemma EncodeByGroups(a: byte, b: byte, c: byte, rest: seq<byte>)
    ensures Encode([a, b, c] + rest)
            == [ToChar(a as nat / 4), ToChar(a as nat % 4 * 16 + b as nat / 16),
                ToChar(b as nat % 16 * 4 + c as nat / 64), ToChar(c as nat % 64)] + Encode(rest)
  {
    var xs := [a as nat / 4, a as nat % 4 * 16 + b as nat / 16, b as nat % 16 * 4 + c as nat / 64, c as nat % 64];
    EncodeTriple(a, b, c, rest);
    EncodeMore([a, b, c] + rest, xs, rest);
    FourChars(xs[0], xs[1], xs[2], xs[3]);
  }

  lemma FourChars(w: nat, x: nat, y: nat, z: nat)
    requires w < 64 && x < 64 && y < 64 && z < 64
    ensures ToChars([w, x, y, z]) == [ToChar(w), ToChar(x), ToChar(y), ToChar(z)]
  {
  }

  lemma EncodeMore(v: seq<byte>, xs: seq<nat>, rest: seq<byte>)
    requires Below(xs, 64) && |v| == |rest| + 3 && Sextets(v) == xs + Sextets(rest)
    ensures Encode(v) == ToChars(xs) + Encode(rest)
  {
    ToCharsAppend(xs, Sextets(rest));
    assert Padding(|v|) == Padding(|rest|);
  }

  lemma ToCharsAppend(xs: seq<nat>, ys: seq<nat>)
    requires Below(xs, 64) && Below(ys, 64)
    ensures Below(xs + ys, 64) && ToChars(xs + ys) == ToChars(xs) + ToChars(ys)
  {
  }

  lemma EncodeEnds(a: byte, b: byte)
    ensures Encode([]) == []
    ensures Encode([a]) == [ToChar(a as nat / 4), ToChar(a as nat % 4 * 16), '=', '=']
    ensures Encode([a, b])
            == [ToChar(a as nat / 4), ToChar(a as nat % 4 * 16 + b as nat / 16), ToChar(b as nat % 16 * 4), '=']
  {
    NoSextets();
    EncodeShortGroup(a, b);
    TwoChars(a as nat / 4, a as nat % 4 * 16);
    ThreeChars(a as nat / 4, a as nat % 4 * 16 + b as nat / 16, b as nat % 16 * 4);
  }

  lemma TwoChars(x: nat, y: nat)
    requires x < 64 && y < 64
    ensures ToChars([x, y]) + Padding(1) == [ToChar(x), ToChar(y), '=', '=']
  {
  }

  lemma ThreeChars(x: nat, y: nat, z: nat)
    requires x < 64 && y < 64 && z < 64
    ensures ToChars([x, y, z]) + Padding(2) == [ToChar(x), ToChar(y), ToChar(z), '=']
  {
  }

  /** An encoding decodes the same without its '='. */
  lemma DecodeUnpadded(v: seq<byte>)
    ensures Decode(ToChars(Sextets(v))) == Some(TrimNul(v))
  {
    var xs := Sextets(v);
    FromCharsOf(xs);
    SextetsLength(v);
    DecodeBySextets(ToChars(xs), xs);
    OctetsOfSextets(v);
  }

  lemma FromCharsOf(xs: seq<nat>)
    requires Below(xs, 64)
    ensures FromChars(ToChars(xs)) == Some(xs)
  {
    FromToChars(xs, "");
    assert ToChars(xs) + "" == ToChars(xs) && xs + Nulls(0) == xs;
  }

  lemma SextetsLength(v: seq<byte>)
    ensures |Sextets(v)| % 4 != 1
  {
    EncodedLength(v);
    LessThanFour(|Sextets(v)|, (|v| + 2) / 3, |Padding(|v|)|);
  }

  lemma OctetsOfSextets(v: seq<byte>)
    ensures Octets(Sextets(v)) == v
  {
    var bits := Spread(Ints(v), 8);
    var fill := ZeroBits(Fill(|bits|, 6));
    SpreadGather(bits + fill, 6);
    assert Spread(Sextets(v), 6) == bits + fill;
    assert Pow2(8) == 256;
    GatherSpread(Ints(v), 8, fill);
  }

  /** decode fails iff a character is neither of the alphabet nor '=', or the length is 4k + 1. */
  lemma DecodeSomeIff(s: string)
    ensures Decode(s).Some? <==> |s| % 4 != 1 && forall c :: c in s ==> c == '=' || c in ALPHABET
  {
    FromCharsSomeIff(s);
    forall c | c in s
      ensures FromChar(c).Some? <==> c == '=' || c in ALPHABET
    {
      FromCharIff(c);
    }
  }

  lemma {:induction false} FromCharsSomeIff(s: string)
    ensures FromChars(s).Some? <==> forall c :: c in s ==> FromChar(c).Some?
  {
    if s != [] {
      FromCharsSomeIff(s[1..]);
      assert s == [s[0]] + s[1..];
    }
  }

  lemma FromCharIff(c: char)
    ensures FromChar(c).Some? <==> c == '=' || c in ALPHABET
  {
    AlphabetIsStandard(0);
    if c in ALPHABET {
      var i :| 0 <= i < |ALPHABET| && ALPHABET[i] == c;
      AlphabetIsStandard(i);
      AlphabetIsInverse(i);
    }
    if FromChar(c).Some? && c != '=' {
      AlphabetIsStandard(FromChar(c).value);
      assert ToChar(FromChar(c).value) == c;
    }
  }
}
