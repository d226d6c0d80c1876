/** One step of the rolling checksum in hash_search, with its uint32 wrap-around. */
module Rolling {
  import opened Bytes
  import opened Checksum

  const M := 0x1_0000

  /** s1 and s2 are the 16-bit sums of the window. */
  ghost predicate SumsOfWindow(w: seq<byte>, s1: int, s2: int) {
    s1 == Sum1(w) % M && s2 == Sum2(w) % M
  }

  lemma ModShift(x: int, q: int)
    ensures (x + M * q) % M == x % M
  {
  }

  lemma U32Mod(x: int)
    ensures U32(x) % M == x % M
  {
  }

  lemma ModSub(x: int, y: int, z: int)
    requires x % M == y % M
    ensures (x - z) % M == (y - z) % M && (x + z) % M == (y + z) % M
  {
    ModShift(y - z, x / M - y / M);
    ModShift(y + z, x / M - y / M);
  }

  lemma MulWraps(k: nat, x: int)
    ensures (k * U32(x)) % M == (k * x) % M
  {
    var q := x / 0x1_0000_0000;
    var big: int := k * q;
    assert k * x == k * U32(x) + 0x1_0000_0000 * big by {
      assert x == U32(x) + 0x1_0000_0000 * q;
    }
    ModShift(k * U32(x), 0x1_0000 * big);
  }

  /** Removing the oldest byte: `s1 -= update[0]; s2 -= k * update[0]`. */
  lemma DropWraps(s1: int, s2: int, a1: int, a2: int, k: nat, b: byte)
    requires s1 % M == a1 % M && s2 % M == a2 % M
    ensures U32(s1 - SignExtend(b)) % M == (a1 - Signed(b)) % M
    ensures U32(s2 - U32(k * SignExtend(b))) % M == (a2 - k * Signed(b)) % M
  {
    var e: int, d := SignExtend(b), Signed(b);
    U32Mod(d);
    U32Mod(s1 - e);
    ModSub(s1, a1, e);
    ModNeg(a1, e, d);
    var p, p' := U32(k * e), k * d;
    U32Mod(k * e);
    MulWraps(k, d);
    U32Mod(s2 - p);
    ModSub(s2, a2, p);
    ModNeg(a2, p, p');
  }

  lemma ModNeg(a: int, x: int, y: int)
    requires x % M == y % M
    ensures (a - x) % M == (a - y) % M && (a + x) % M == (a + y) % M
  {
    ModShift(a - y, y / M - x / M);
    ModShift(a + y, x / M - y / M);
  }

  /** Adding the newest byte: `s1 += update[k]; s2 += s1`. */
  lemma AddWraps(s1: int, s2: int, a1: int, a2: int, b: byte)
    requires s1 % M == a1 % M && s2 % M == a2 % M
    ensures var n1 := U32(s1 + SignExtend(b));
            n1 % M == (a1 + Signed(b)) % M && U32(s2 + n1) % M == (a2 + a1 + Signed(b)) % M
  {
    var e: int, d := SignExtend(b), Signed(b);
    U32Mod(d);
    U32Mod(s1 + e);
    ModSub(s1, a1, e);
    ModNeg(a1, e, d);
    var n1: int := U32(s1 + e);
    U32Mod(s2 + n1);
    ModSub(s2, a2, n1);
    ModNeg(a2, n1, a1 + d);
  }

  /** The window without its oldest byte, or slid by one when a newer byte exists. */
  function Slide(w: seq<byte>, newest: Option<byte>): seq<byte>
    requires w != []
  {
    w[1..] + match newest case None => [] case Some(b) => [b]
  }

  /** The loop body's update of s1, s2 and k. */
  method Roll(ghost w: seq<byte>, k: nat, s1: uint16, s2: uint16, oldest: byte, newest: Option<byte>)
    returns (k': nat, s1': uint16, s2': uint16)
    requires w != [] && k == |w| && oldest == w[0]
    requires SumsOfWindow(w, s1, s2)
    ensures k' == |Slide(w, newest)|
    ensures SumsOfWindow(Slide(w, newest), s1', s2')
  {
    hide Sum1, Sum2, SignExtend, Signed, U32;
    SumsDropFirst(w);
    ModIdem(w, s1, s2);
    var t1: uint32 := U32(s1 - SignExtend(oldest));
    var t2: uint32 := U32(s2 - U32(k * SignExtend(oldest)));
    DropWraps(s1, s2, Sum1(w), Sum2(w), k, oldest);
    k' := k;
    match newest {
      case Some(b) =>
        AddWraps(t1, t2, Sum1(w[1..]), Sum2(w[1..]), b);
        SumsSnoc(w[1..], b);
        t1 := U32(t1 + SignExtend(b));
        t2 := U32(t2 + t1);
      case None =>
        k' := k - 1;
        assert w[1..] + [] == w[1..];
    }
    s1', s2' := t1 % M, t2 % M;
  }

  lemma ModIdem(w: seq<byte>, s1: uint16, s2: uint16)
    requires SumsOfWindow(w, s1, s2)
    ensures s1 % M == Sum1(w) % M && s2 % M == Sum2(w) % M
  {
  }
}
