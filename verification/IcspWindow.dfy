/** The Python replay window, whose mask grows without bound, and the C one of 32 bits. */
module IcspWindow {
  import opened Limbs
  import opened ModArith
  import opened Machine
  import opened BitMask
  import opened Wrappers
  import IcspReplay
  import opened IcspSession

  /** The C window that remembers what a Python one does. */
  function Cut(v: View): IcspReplay.Window {
    IcspReplay.Window(v.rwTsn, v.rwMask % 0x1_0000_0000)
  }

  lemma CutProduct(r: int, q: int, w: int, m: int)
    requires m > 0
    ensures ((r + q * m) * w) % m == (r * w) % m
  {
    assert (r + q * m) * w == r * w + (q * w) * m;
    ModShift(r * w, q * w, m);
  }

  lemma EvenThenOne(x: int, m: int)
    requires m > 0 && x % m + 1 < m
    ensures (x + 1) % m == x % m + 1
  {
    DivModDef(x, m);
    ModUnique(x + 1, x / m, x % m + 1, m);
  }

  lemma ShiftCut(mask: int, shift: nat)
    requires 0 < shift < 32
    ensures (mask * Pow(2, shift) + 1) % 0x1_0000_0000 == IcspReplay.Shifted(mask % 0x1_0000_0000, shift)
  {
    var m := 0x1_0000_0000;
    Two32(32);
    DivModDef(mask, m);
    CutProduct(mask % m, mask / m, Pow(2, shift), m);
    LowTermHalf(mask % m, shift, 32);
    EvenThenOne(mask * Pow(2, shift), m);
  }

  lemma SetCut(mask: int, d: nat)
    requires d < 32 && Bit(mask, d) == 0
    ensures Bit(mask % 0x1_0000_0000, d) == 0
    ensures (mask + Pow(2, d)) % 0x1_0000_0000 == IcspReplay.WithBit(mask % 0x1_0000_0000, d)
  {
    var m := 0x1_0000_0000;
    Two32(32);
    TruncateBits(mask, 32, d);
    SetFits(mask % m, d, 32);
    PowPositive(2, d);
    DivModDef(mask, m);
    ModUnique(mask + Pow(2, d), mask / m, mask % m + Pow(2, d), m);
  }

  /** Both windows let the same TSNs through, and stay alike. */
  lemma WindowsAgree(v: View, tsn: Tsn)
    ensures Admit(v, tsn).Some? <==> IcspReplay.Admit(Cut(v), tsn).1
    ensures Admit(v, tsn).Some? ==> Cut(Admit(v, tsn).value) == IcspReplay.Admit(Cut(v), tsn).0
  {
    if tsn > v.rwTsn {
      var shift := tsn as int - v.rwTsn;
      if shift < 32 {
        ShiftCut(v.rwMask, shift);
      }
    } else if v.rwTsn as int - tsn < 32 {
      var d := v.rwTsn as int - tsn;
      Two32(32);
      TruncateBits(v.rwMask, 32, d);
      BitRange(v.rwMask, d);
      if Bit(v.rwMask, d) == 0 {
        SetCut(v.rwMask, d);
      }
    }
  }

  /** The TSNs a Python window lets through. */
  function Passing(v: View, arrivals: seq<Tsn>): seq<Tsn>
    decreases |arrivals|
  {
    if arrivals == [] then []
    else
      match Admit(v, arrivals[0])
      case None => Passing(v, arrivals[1..])
      case Some(v1) => [arrivals[0]] + Passing(v1, arrivals[1..])
  }

  lemma {:induction false} PassingAgree(v: View, arrivals: seq<Tsn>)
    ensures Passing(v, arrivals) == IcspReplay.Passing(Cut(v), arrivals)
    decreases |arrivals|
  {
    if arrivals != [] {
      WindowsAgree(v, arrivals[0]);
      match Admit(v, arrivals[0])
      case None =>
        assert IcspReplay.Admit(Cut(v), arrivals[0]).0 == Cut(v);
        PassingAgree(v, arrivals[1..]);
        assert [] + Passing(v, arrivals[1..]) == Passing(v, arrivals[1..]);
      case Some(v1) => PassingAgree(v1, arrivals[1..]);
    }
  }

  /** No TSN passes the Python window twice either. */
  lemma NoTsnPassesTwice(first: Tsn, arrivals: seq<Tsn>)
    ensures var p := Passing(Fresh(first), arrivals);
            forall i, j :: 0 <= i < j < |p| ==> p[i] != p[j]
  {
    PassingAgree(Fresh(first), arrivals);
    IcspReplay.NoTsnPassesTwice(arrivals);
  }
}
