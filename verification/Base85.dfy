/** The base85 encoding of messages. A text over its alphabet is the sequence of
    the digits that its characters stand for. */
module Base85 {
  import opened Bytes
  import opened Lists

  type Digit = x: int | 0 <= x < 85

  // -------------------------------------------------------------- numbers in a base

  /** The last `k` digits of `n`, the highest first. */
  function ToBase(n: nat, base: nat, k: nat): (ds: seq<int>)
    requires base > 0
    ensures |ds| == k && forall i | 0 <= i < k :: 0 <= ds[i] < base
    decreases k
  {
    if k == 0 then [] else ToBase(n / base, base, k - 1) + [n % base]
  }

  function FromBase(ds: seq<int>, base: nat): (n: nat)
    requires base > 0 && forall i | 0 <= i < |ds| :: 0 <= ds[i] < base
  {
    if ds == [] then 0 else FromBase(Front(ds), base) * base + Last(ds)
  }

  function Power(base: nat, k: nat): nat {
    if k == 0 then 1 else Power(base, k - 1) * base
  }

  lemma DivMod(q: nat, r: nat, base: nat)
    requires r < base
    ensures (q * base + r) / base == q && (q * base + r) % base == r
  {
    var n := q * base + r;
    var d := n / base - q;
    assert d * base == r - n % base by {
      assert n == n / base * base + n % base;
      assert d * base == n / base * base - q * base;
    }
    MulFar(d, base);
  }

  lemma MulFar(d: int, base: nat)
    ensures d >= 1 ==> d * base >= base
    ensures d <= -1 ==> d * base <= 0 - base
  {
    if d >= 1 {
      assert d * base == (d - 1) * base + base;
    } else if d <= -1 {
      assert d * base == (d + 1) * base - base;
    }
  }

  lemma ToBaseStep(n: nat, base: nat, k: nat)
    requires base > 0 && k > 0
    ensures ToBase(n, base, k) == ToBase(n / base, base, k - 1) + [n % base]
    ensures n / base * base + n % base == n && 0 <= n % base < base
  {
  }

  lemma {:induction false} FromToBase(n: nat, base: nat, k: nat)
    requires base > 0 && n < Power(base, k)
    ensures FromBase(ToBase(n, base, k), base) == n
    decreases k
  {
    if k > 0 {
      hide ToBase, FromBase;
      DivSmaller(n, base, Power(base, k - 1));
      FromToBase(n / base, base, k - 1);
      ToBaseStep(n, base, k);
      FromBaseSnoc(ToBase(n / base, base, k - 1), n % base, base);
    }
  }

  lemma DivSmaller(n: nat, base: nat, p: nat)
    requires base > 0 && n < p * base
    ensures n / base < p
  {
    MulMonotone(p, n / base, base);
  }

  lemma MulMonotone(a: nat, b: nat, base: nat)
    ensures a <= b ==> a * base <= b * base
  {
    if a <= b {
      assert b * base == a * base + (b - a) * base;
    }
  }

  lemma {:induction false} ToFromBase(ds: seq<int>, base: nat)
    requires base > 0 && forall i | 0 <= i < |ds| :: 0 <= ds[i] < base
    ensures ToBase(FromBase(ds, base), base, |ds|) == ds
    ensures FromBase(ds, base) < Power(base, |ds|)
  {
    if ds != [] {
      ToFromBase(Front(ds), base);
      DivMod(FromBase(Front(ds), base), Last(ds), base);
      PowerStep(FromBase(Front(ds), base), Last(ds), base, Power(base, |ds| - 1));
      assert ds == Front(ds) + [Last(ds)];
    }
  }

  lemma PowerStep(q: nat, r: nat, base: nat, p: nat)
    requires q < p && r < base
    ensures q * base + r < p * base
  {
    assert (q + 1) * base <= p * base;
  }

  // ------------------------------------------------------------------------ groups

  function Decoded(ds: seq<Digit>): Option<seq<Byte>>
    requires |ds| == 5
  {
    var word := FromBase(ds, 85);
    if word < 0x1_0000_0000 then Some(ToBase(word, 256, 4)) else None
  }

  function Encoded(bytes: seq<Byte>): (ds: seq<Digit>)
    requires |bytes| == 4
    ensures |ds| == 5
  {
    ToBase(FromBase(bytes, 256), 85, 5)
  }

  function Tildes(n: nat): (ds: seq<Digit>)
    ensures |ds| == n
  {
    seq(n, _ => 84)
  }

  /** `b85encode` */
  function Encode(bytes: seq<Byte>): seq<Digit> {
    if bytes == [] then []
    else if |bytes| < 4 then Encoded(bytes + Zeros(4 - |bytes|))[..|bytes| + 1]
    else Encoded(bytes[..4]) + Encode(bytes[4..])
  }

  /** `b85decode`; `None` if a group stands for more than four bytes. */
  function Decode(ds: seq<Digit>): Option<seq<Byte>> {
    if ds == [] then Some([])
    else if |ds| < 5 then
      match Decoded(ds + Tildes(5 - |ds|))
      case None => None
      case Some(bytes) => Some(bytes[..|ds| - 1])
    else
      match Decoded(ds[..5])
      case None => None
      case Some(bytes) => match Decode(ds[5..]) case None => None case Some(more) => Some(bytes + more)
  }

  lemma WholeGroup(bytes: seq<Byte>)
    requires |bytes| == 4
    ensures Decoded(Encoded(bytes)) == Some(bytes)
  {
    ToFromBase(bytes, 256);
    Powers();
    FromToBase(FromBase(bytes, 256), 85, 5);
  }

  lemma Powers()
    ensures Power(256, 4) == 0x1_0000_0000 && Power(85, 5) == 4437053125
  {
    assert Power(256, 2) == 65536 && Power(85, 3) == 614125;
  }

  /** The first `k` of `k + j` digits. */
  lemma {:induction false} LeadingDigits(n: nat, base: nat, k: nat, j: nat)
    requires base > 0
    ensures ToBase(n, base, k + j)[..k] == ToBase(Shifted(n, base, j), base, k)
    decreases j
  {
    hide ToBase;
    if j > 0 {
      LeadingDigits(n / base, base, k, j - 1);
      ToBaseStep(n, base, k + j);
    }
  }

  function Shifted(n: nat, base: nat, j: nat): nat
    requires base > 0
    decreases j
  {
    if j == 0 then n else Shifted(n / base, base, j - 1)
  }

  /** Filling up with the highest digit instead of the digits cut off never
      carries into the bytes that were encoded. */
  lemma FilledUp(u: nat, pad: nat, v: nat, kept: nat, w: nat)
    requires 1 <= pad <= 3
    requires v == u * (if pad == 1 then 256 else if pad == 2 then 65536 else 16777216)
    requires kept == Shifted(v, 85, pad)
    requires w == if pad == 1 then kept * 85 + 84
                  else if pad == 2 then (kept * 85 + 84) * 85 + 84
                  else ((kept * 85 + 84) * 85 + 84) * 85 + 84
    ensures Shifted(w, 256, pad) == u && v <= w
  {
    Unrolled(v, 85);
    Unrolled(w, 256);
  }

  lemma Unrolled(n: nat, base: nat)
    requires base > 0
    ensures Shifted(n, base, 1) == n / base
    ensures Shifted(n, base, 2) == n / base / base
    ensures Shifted(n, base, 3) == n / base / base / base
  {
    assert Shifted(n / base / base, base, 1) == n / base / base / base;
    assert Shifted(n / base, base, 2) == Shifted(n / base / base, base, 1);
  }

  lemma FromBaseSnoc(ds: seq<int>, d: int, base: nat)
    requires base > 0 && (forall i | 0 <= i < |ds| :: 0 <= ds[i] < base) && 0 <= d < base
    ensures FromBase(ds + [d], base) == FromBase(ds, base) * base + d
  {
    assert Front(ds + [d]) == ds;
  }

  /** `n` with `pad` digits `d` behind it. */
  function Filled(n: nat, base: nat, d: nat, pad: nat): nat {
    if pad == 0 then n else Filled(n, base, d, pad - 1) * base + d
  }

  lemma {:induction false} FromBaseFilled(ds: seq<int>, d: int, pad: nat, fill: seq<int>, base: nat)
    requires base > 0 && (forall i | 0 <= i < |ds| :: 0 <= ds[i] < base) && 0 <= d < base
    requires |fill| == pad && forall i | 0 <= i < pad :: fill[i] == d
    ensures FromBase(ds + fill, base) == Filled(FromBase(ds, base), base, d, pad)
    decreases pad
  {
    if pad == 0 {
      assert ds + fill == ds;
    } else {
      FromBaseFilled(ds, d, pad - 1, Front(fill), base);
      FromBaseSnoc(ds + Front(fill), d, base);
      assert ds + fill == ds + Front(fill) + [d];
    }
  }

  lemma FilledSteps(n: nat, base: nat, d: nat)
    ensures Filled(n, base, d, 1) == n * base + d
    ensures Filled(n, base, d, 2) == (n * base + d) * base + d
    ensures Filled(n, base, d, 3) == ((n * base + d) * base + d) * base + d
  {
    assert Filled(n, base, d, 0) == n;
    assert Filled(n, base, d, 1) == Filled(n, base, d, 0) * base + d;
    assert Filled(n, base, d, 2) == Filled(n, base, d, 1) * base + d;
  }

  /** A last group of one to three bytes. */
  lemma PartialNumbers(u: nat, r: nat)
    requires 1 <= r <= 3 && u < Power(256, r)
    ensures var v := Filled(u, 256, 0, 4 - r);
            var kept := Shifted(v, 85, 4 - r);
            var w := Filled(kept, 85, 84, 4 - r);
            && v < 0x1_0000_0000 && kept < Power(85, r + 1)
            && w < 0x1_0000_0000 && Shifted(w, 256, 4 - r) == u
  {
    var v := Filled(u, 256, 0, 4 - r);
    var kept := Shifted(v, 85, 4 - r);
    FilledSteps(u, 256, 0);
    FilledSteps(kept, 85, 84);
    FilledUp(u, 4 - r, v, kept, Filled(kept, 85, 84, 4 - r));
    SmallPowers();
    Unrolled(v, 85);
    Unrolled(Filled(kept, 85, 84, 4 - r), 256);
  }

  lemma SmallPowers()
    ensures Power(256, 1) == 256 && Power(256, 2) == 65536 && Power(256, 3) == 16777216
    ensures Power(85, 2) == 7225 && Power(85, 3) == 614125 && Power(85, 4) == 52200625
  {
    assert Power(256, 0) == 1 && Power(85, 0) == 1 && Power(85, 1) == 85;
  }

  lemma PartialGroup(bytes: seq<Byte>)
    requires 1 <= |bytes| <= 3
    ensures Decode(Encode(bytes)) == Some(bytes) && |Encode(bytes)| == |bytes| + 1
  {
    hide Power, Shifted, Filled, ToBase, FromBase;
    var r := |bytes|;
    var pad := 4 - r;
    var u := FromBase(bytes, 256);
    var v := Filled(u, 256, 0, pad);
    var kept := Shifted(v, 85, pad);
    ToFromBase(bytes, 256);
    PartialNumbers(u, r);
    FromBaseFilled(bytes, 0, pad, Zeros(pad), 256);
    LeadingDigits(v, 85, r + 1, pad);
    var ds: seq<Digit> := Encode(bytes);
    assert ds == ToBase(kept, 85, r + 1);
    FromToBase(kept, 85, r + 1);
    FromBaseFilled(ds, 84, pad, Tildes(pad), 85);
    var w := Filled(kept, 85, 84, pad);
    LeadingDigits(w, 256, r, pad);
    assert Decoded(ds + Tildes(pad)) == Some(ToBase(w, 256, 4));
    assert ToBase(w, 256, 4)[..r] == bytes;
  }

  function EncodedLength(n: nat): nat {
    n / 4 * 5 + if n % 4 == 0 then 0 else n % 4 + 1
  }

  /** Every message comes back, and how long its encoding is. */
  lemma {:induction false} DecodeEncode(bytes: seq<Byte>)
    ensures Decode(Encode(bytes)) == Some(bytes)
    ensures |Encode(bytes)| == EncodedLength(|bytes|)
    decreases |bytes|
  {
    hide ToBase, FromBase, Power;
    if 0 < |bytes| < 4 {
      PartialGroup(bytes);
    } else if bytes != [] {
      hide Encoded, Decoded;
      WholeGroup(bytes[..4]);
      DecodeEncode(bytes[4..]);
      var group, more := Encoded(bytes[..4]), Encode(bytes[4..]);
      assert (group + more)[..5] == group && (group + more)[5..] == more;
      assert bytes[..4] + bytes[4..] == bytes;
    }
  }

  /** No encoding is 11 characters long, as encoded lengths are never 1 modulo 5. */
  lemma NeverElevenLong(bytes: seq<Byte>)
    ensures |Encode(bytes)| % 5 != 1 && |Encode(bytes)| != 11
    ensures Encode(bytes) == [] <==> bytes == []
  {
    hide Encode, Decode;
    DecodeEncode(bytes);
    var n := |bytes|;
    DivMod(n / 4, if n % 4 == 0 then 0 else n % 4 + 1, 5);
  }
}
