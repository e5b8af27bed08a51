/** The C replay window of one ICSP association and its stream order gate. */
module IcspReplay {
  import opened Limbs
  import opened ModArith
  import opened Machine
  import opened BitMask

  type u16 = x: int | 0 <= x < 0x1_0000

  const MAX_STREAMS: nat := 8
  const RCVQ: nat := 16
  const WRAP32: int := 0x1_0000_0000

  // ---- the window ------------------------------------------------------------------

  /** The highest TSN let through, and a mask whose bit i stands for top - i. */
  datatype Window = Window(top: u32, mask: u32)

  /** The mask moved up by shift, with bit 0 set, cut to 32 bits. */
  function Shifted(mask: u32, shift: nat): (r: u32)
    requires 0 < shift < 32
  {
    Two32(32);
    LowTermHalf(mask, shift, 32);
    (mask * Pow(2, shift)) % WRAP32 + 1
  }

  function WithBit(mask: u32, d: nat): (r: u32)
    requires d < 32 && Bit(mask, d) == 0
  {
    Two32(32);
    SetFits(mask, d, 32);
    PowPositive(2, d);
    mask as int + Pow(2, d)
  }

  lemma {:induction false} ZeroBits(t: nat)
    ensures Bit(0, t) == 0
  {
    if t > 0 {
      ZeroBits(t - 1);
    }
  }

  /** The window after tsn, and whether tsn is let through. */
  function Admit(w: Window, tsn: u32): (Window, bool) {
    if tsn > w.top then
      var shift := tsn as int - w.top;
      (Window(tsn, if shift < 32 then Shifted(w.mask, shift) else 1), true)
    else
      var d := w.top as int - tsn;
      BitRange(w.mask, if d < 32 then d else 0);
      if d >= 32 || Bit(w.mask, d) == 1 then (w, false)
      else (Window(w.top, WithBit(w.mask, d)), true)
  }

  /** The mask is exactly the record of the last 32 TSNs. */
  ghost predicate Records(w: Window, passed: set<int>) {
    && (forall t :: t in passed ==> 0 <= t <= w.top)
    && (forall i :: 0 <= i < 32 ==> (Bit(w.mask, i) == 1 <==> w.top as int - i in passed))
  }

  lemma NewBits(w: Window, tsn: u32, i: nat)
    requires i < 32 && Admit(w, tsn).1
    ensures var w2 := Admit(w, tsn).0;
            var j := i - (w2.top as int - w.top);
            Bit(w2.mask, i) == 1 <==> w2.top as int - i == tsn || (0 <= j < 32 && Bit(w.mask, j) == 1)
  {
    if tsn > w.top {
      var shift := tsn as int - w.top;
      if shift < 32 {
        Two32(32);
        LowTermHalf(w.mask, shift, 32);
        var low := (w.mask * Pow(2, shift)) % WRAP32;
        ShiftBits(w.mask, shift, 32, i);
        if i > 0 {
          assert (low + 1) / 2 == low / 2;
        }
      } else if i > 0 {
        ZeroBits(i - 1);
      }
    } else {
      var d := w.top as int - tsn;
      BitRange(w.mask, d);
      SetBits(w.mask, d, i);
    }
  }

  /** One arrival: a TSN never passes twice, one inside the window that was not
      seen always passes, and the mask stays the exact record. */
  lemma AdmitKeeps(w: Window, tsn: u32, passed: set<int>)
    requires Records(w, passed)
    ensures var (w2, ok) := Admit(w, tsn);
            && (ok <==> tsn as int !in passed && tsn as int + 32 > w.top)
            && Records(w2, if ok then passed + {tsn as int} else passed)
  {
    var (w2, ok) := Admit(w, tsn);
    if ok {
      forall i | 0 <= i < 32
        ensures Bit(w2.mask, i) == 1 <==> w2.top as int - i in passed + {tsn as int}
      {
        NewBits(w, tsn, i);
        var j := i - (w2.top as int - w.top);
        assert 0 <= j < 32 ==> (Bit(w.mask, j) == 1 <==> w.top as int - j in passed);
      }
      assert tsn as int !in passed by {
        if tsn <= w.top {
          BitRange(w.mask, w.top as int - tsn);
          assert Bit(w.mask, w.top as int - tsn) == 1 <==> tsn as int in passed;
        }
      }
    } else {
      var d := w.top as int - tsn;
      if d < 32 {
        assert Bit(w.mask, d) == 1 <==> w.top as int - d in passed;
      }
    }
  }

  lemma EmptyWindow()
    ensures Records(Window(0, 0), {})
  {
    forall i | 0 <= i < 32
      ensures Bit(0, i) == 0
    {
      ZeroBits(i);
    }
  }

  /** The TSNs that pass when these arrive, in order. */
  function Passing(w: Window, arrivals: seq<u32>): seq<u32>
    decreases |arrivals|
  {
    if arrivals == [] then []
    else
      var (w2, ok) := Admit(w, arrivals[0]);
      (if ok then [arrivals[0]] else []) + Passing(w2, arrivals[1..])
  }

  lemma {:induction false} PassingFresh(w: Window, arrivals: seq<u32>, passed: set<int>)
    requires Records(w, passed)
    ensures forall i :: 0 <= i < |Passing(w, arrivals)| ==> Passing(w, arrivals)[i] as int !in passed
    ensures forall i, j :: 0 <= i < j < |Passing(w, arrivals)| ==> Passing(w, arrivals)[i] != Passing(w, arrivals)[j]
    decreases |arrivals|
  {
    if arrivals != [] {
      var t := arrivals[0];
      AdmitKeeps(w, t, passed);
      var (w2, ok) := Admit(w, t);
      var rest := Passing(w2, arrivals[1..]);
      PassingFresh(w2, arrivals[1..], if ok then passed + {t as int} else passed);
      assert Passing(w, arrivals) == (if ok then [t] else []) + rest;
      if ok {
        assert forall i :: 0 <= i < |rest| ==> rest[i] as int in {t as int} + passed ==> false;
      }
    }
  }

  /** Whatever arrives at a fresh window, no TSN passes twice. */
  lemma NoTsnPassesTwice(arrivals: seq<u32>)
    ensures var p := Passing(Window(0, 0), arrivals);
            forall i, j :: 0 <= i < j < |p| ==> p[i] != p[j]
  {
    EmptyWindow();
    PassingFresh(Window(0, 0), arrivals, {});
  }
}
