/** 2020 day 14: 36-bit masks applied to stored values (first part) and to
    memory addresses with floating bits (second part). A word is a sequence
    of 36 bits, bit p being the one of weight 2^p; a mask is 36 characters
    written from bit 35 down to bit 0. */
module Y2020Day14 {
  import opened Common
  import opened Modular

  const Width := 36

  type Bits = seq<bool>

  predicate IsWord(w: Bits) { |w| == Width }

  /** The mask character that governs bit p. */
  function MaskAt(mask: string, p: nat): char
    requires |mask| == Width && p < Width
  {
    mask[Width - 1 - p]
  }

  /** The low 36 bits of a number. */
  function ToBits(v: nat): (w: Bits)
    ensures IsWord(w)
  {
    LowBits(v, Width)
  }

  /** The n lowest bits of v, lowest first. */
  function LowBits(v: nat, n: nat): (w: Bits)
    ensures |w| == n
  {
    if n == 0 then [] else [v % 2 == 1] + LowBits(v / 2, n - 1)
  }

  /** The number a word stands for. */
  function FromBits(w: Bits): nat
  {
    if w == [] then 0 else (if w[0] then 1 else 0) + 2 * FromBits(w[1..])
  }

  lemma {:induction false} FromBitsBound(w: Bits)
    ensures FromBits(w) < Pow(2, |w|)
  {
    if w != [] {
      FromBitsBound(w[1..]);
    }
  }

  function And(a: Bits, b: Bits): (c: Bits)
    requires |a| == |b|
    ensures |c| == |a| && forall p :: 0 <= p < |a| ==> c[p] == (a[p] && b[p])
  {
    seq(|a|, p requires 0 <= p < |a| => a[p] && b[p])
  }

  function Or(a: Bits, b: Bits): (c: Bits)
    requires |a| == |b|
    ensures |c| == |a| && forall p :: 0 <= p < |a| ==> c[p] == (a[p] || b[p])
  {
    seq(|a|, p requires 0 <= p < |a| => a[p] || b[p])
  }

  predicate MaskChars(mask: string) { forall i :: 0 <= i < |mask| ==> mask[i] in "01X" }

  /** `mask.replace('X', x).toLong(2)`; a character other than 0, 1, X
      makes `toLong` throw. */
  function MaskWord(mask: string, x: char): Option<Bits>
    requires |mask| == Width
  {
    if !MaskChars(mask) then None
    else Some(seq(Width, p requires 0 <= p < Width => MaskAt(mask, p) == '1' || (MaskAt(mask, p) == 'X' && x == '1')))
  }

  /** What the first part stores: 0 and 1 bits of the mask overwrite, X
      bits keep the value's bit. */
  function Masked(mask: string, v: nat): (w: Bits)
    requires |mask| == Width
    ensures IsWord(w)
  {
    seq(Width, p requires 0 <= p < Width => if MaskAt(mask, p) == 'X' then ToBits(v)[p] else MaskAt(mask, p) == '1')
  }

  /** `value and zeroMask or oneMask` is the masked value. */
  lemma StoreMeaning(mask: string, v: nat)
    requires |mask| == Width && MaskChars(mask)
    ensures Or(And(ToBits(v), MaskWord(mask, '1').value), MaskWord(mask, '0').value) == Masked(mask, v)
  {
    assert forall p :: 0 <= p < Width ==> MaskAt(mask, p) in "01X";
  }

  /** A parsed line: a mask, a memory write, or anything else. */
  datatype Line = Mask(mask: string) | Mem(addr: nat, value: nat) | Other(text: string)

  /** Every mask line carries 36 characters. */
  predicate WellFormed(lines: seq<Line>)
  {
    forall k :: 0 <= k < |lines| && lines[k].Mask? ==> |lines[k].mask| == Width
  }

  // ---------------------------------------------------------------------
  // Part1

  datatype State1 = State1(zeroMask: Bits, oneMask: Bits, mem: map<nat, int>)

  predicate Valid1(st: State1) { IsWord(st.zeroMask) && IsWord(st.oneMask) }

  /** Before any mask, `zeroMask` is 36 ones and `oneMask` is 0. */
  function Init1(): State1
  {
    State1(seq(Width, _ => true), seq(Width, _ => false), map[])
  }

  function Step1(st: State1, line: Line): Option<State1>
    requires Valid1(st) && (line.Mask? ==> |line.mask| == Width)
  {
    match line
    case Mask(m) =>
      if MaskWord(m, '1').None? then None
      else Some(State1(MaskWord(m, '1').value, MaskWord(m, '0').value, st.mem))
    case Mem(a, v) =>
      Some(st.(mem := st.mem[a := FromBits(Or(And(ToBits(v), st.zeroMask), st.oneMask))]))
    case Other(_) => None
  }

  predicate Accepted1(line: Line)
  {
    line.Mem? || (line.Mask? && MaskChars(line.mask))
  }

  /** The state after the lines; `None` once a line throws. */
  function Run1(lines: seq<Line>): (r: Option<State1>)
    requires WellFormed(lines)
    ensures r.Some? <==> forall k :: 0 <= k < |lines| ==> Accepted1(lines[k])
    ensures r.Some? ==> Valid1(r.value)
  {
    if lines == [] then Some(Init1())
    else
      var init := lines[..|lines| - 1];
      assert forall k :: 0 <= k < |init| ==> init[k] == lines[k];
      var prev := Run1(init);
      if prev.None? then None else Step1(prev.value, lines[|lines| - 1])
  }

  /** Part1: the sum of the memory values at the end; a line that is
      neither a mask nor a write throws, and so does a bad mask. */
  method Part1(lines: seq<Line>) returns (r: Result<int>)
    requires WellFormed(lines)
    ensures r.Ok? <==> forall k :: 0 <= k < |lines| ==> Accepted1(lines[k])
    ensures r.Ok? ==> r.value == ValuesSum(Run1(lines).value.mem)
  {
    var zeroMask: Bits := seq(Width, _ => true);
    var oneMask: Bits := seq(Width, _ => false);
    var mem: map<nat, int> := map[];
    var k := 0;
    while k < |lines|
      invariant 0 <= k <= |lines|
      invariant Run1(lines[..k]) == Some(State1(zeroMask, oneMask, mem))
    {
      assert lines[..k + 1][..k] == lines[..k];
      match lines[k] {
      case Mask(m) =>
        var z := MaskWord(m, '1');
        if z.None? {
          return Err("NumberFormatException");
        }
        zeroMask := z.value;
        oneMask := MaskWord(m, '0').value;
      case Mem(a, v) =>
        mem := mem[a := FromBits(Or(And(ToBits(v), zeroMask), oneMask))];
      case Other(_) =>
        return Err("Unexpected line");
      }
      k := k + 1;
    }
    assert lines[..k] == lines;
    var total := SumValues(mem);
    r := Ok(total);
  }

  /** No mask among the lines after a mask line. */
  predicate NoMask(lines: seq<Line>) { forall k :: 0 <= k < |lines| ==> !lines[k].Mask? }

  lemma {:induction false} MasksSurvive(pre: seq<Line>, mid: seq<Line>)
    requires WellFormed(pre + mid) && WellFormed(pre) && NoMask(mid) && Run1(pre + mid).Some?
    ensures Run1(pre).Some?
    ensures Run1(pre + mid).value.zeroMask == Run1(pre).value.zeroMask
    ensures Run1(pre + mid).value.oneMask == Run1(pre).value.oneMask
    decreases |mid|
  {
    if mid == [] {
      assert pre + mid == pre;
    } else {
      var m' := mid[..|mid| - 1];
      assert (pre + mid)[..|pre + mid| - 1] == pre + m';
      assert WellFormed(pre + m') by {
        assert forall k :: 0 <= k < |pre + m'| ==> (pre + m')[k] == (pre + mid)[k];
      }
      MasksSurvive(pre, m');
    }
  }

  /** A write stores its value under the latest mask: 0 and 1 bits are
      forced, X bits come from the value. */
  lemma LatestMask(pre: seq<Line>, mask: string, mid: seq<Line>, a: nat, v: nat)
    requires |mask| == Width && NoMask(mid)
    requires WellFormed(pre + [Mask(mask)] + mid + [Mem(a, v)])
    requires Run1(pre + [Mask(mask)] + mid + [Mem(a, v)]).Some?
    ensures Run1(pre + [Mask(mask)] + mid + [Mem(a, v)]).value.mem[a] == FromBits(Masked(mask, v))
  {
    var all := pre + [Mask(mask)] + mid + [Mem(a, v)];
    var head := pre + [Mask(mask)];
    assert all[..|all| - 1] == head + mid;
    assert forall k :: 0 <= k < |head + mid| ==> (head + mid)[k] == all[k];
    assert forall k :: 0 <= k < |head| ==> head[k] == all[k];
    assert head[..|head| - 1] == pre;
    assert forall k :: 0 <= k < |pre| ==> pre[k] == all[k];
    MasksSurvive(head, mid);
    assert MaskChars(mask) by { assert Accepted1(all[|pre|]); }
    StoreMeaning(mask, v);
  }

  /** Before any mask, a value is stored as its low 36 bits. */
  lemma InitialMask(v: nat)
    ensures Or(And(ToBits(v), Init1().zeroMask), Init1().oneMask) == ToBits(v)
  {
  }

  /** A stored value is below 2^36. */
  lemma StoredBound(w: Bits)
    requires IsWord(w)
    ensures FromBits(w) < Pow(2, 36)
  {
    FromBitsBound(w);
  }

  // ---------------------------------------------------------------------
  // Part2

  /** The floating bit positions, in the order `applyFloatingMask` finds
      them: bit 35 - i for each X at index i < n. */
  function XPositions(mask: string, n: nat): (ps: seq<nat>)
    requires n <= |mask| == Width
    ensures forall j :: 0 <= j < |ps| ==> Width - n <= ps[j] < Width && MaskAt(mask, ps[j]) == 'X'
    ensures forall p :: Width - n <= p < Width && MaskAt(mask, p) == 'X' ==> p in ps
    ensures forall i, j :: 0 <= i < j < |ps| ==> ps[i] > ps[j]
  {
    if n == 0 then []
    else XPositions(mask, n - 1) + (if mask[n - 1] == 'X' then [Width - n] else [])
  }

  /** The fixed part: bit p is the index's bit under '0', set under '1',
      and clear under any other character (X included). */
  function Base(mask: string, index: Bits): (w: Bits)
    requires |mask| == Width && IsWord(index)
    ensures IsWord(w)
  {
    seq(Width, p requires 0 <= p < Width =>
      if MaskAt(mask, p) == '0' then index[p] else MaskAt(mask, p) == '1')
  }

  /** The inner `recurse`: first with the next floating bit left as it is,
      then with it set. */
  function Expand(ps: seq<nat>, v: Bits): (r: seq<Bits>)
    requires forall j :: 0 <= j < |ps| ==> ps[j] < |v|
    ensures |r| == Pow(2, |ps|)
  {
    if ps == [] then [v]
    else Expand(ps[1..], v) + Expand(ps[1..], v[ps[0] := true])
  }

  /** The condition on one address: it agrees with v off the floating bits. */
  predicate AgreesOff(ps: seq<nat>, v: Bits, a: Bits)
  {
    |a| == |v| && forall q :: 0 <= q < |v| && q !in ps ==> a[q] == v[q]
  }

  predicate FloatingClear(ps: seq<nat>, v: Bits)
  {
    (forall j :: 0 <= j < |ps| ==> ps[j] < |v| && !v[ps[j]]) &&
    forall i, j :: 0 <= i < j < |ps| ==> ps[i] != ps[j]
  }

  lemma FloatingClearRest(ps: seq<nat>, v: Bits)
    requires ps != [] && FloatingClear(ps, v)
    ensures FloatingClear(ps[1..], v) && FloatingClear(ps[1..], v[ps[0] := true])
    ensures ps[0] !in ps[1..]
  {
    forall j | 0 <= j < |ps[1..]| ensures ps[1..][j] != ps[0] {
      assert ps[1..][j] == ps[j + 1];
    }
  }

  /** The addresses produced are exactly those agreeing with v off the
      floating bits: every floating bit takes both values. */
  lemma {:induction false} ExpandMembers(ps: seq<nat>, v: Bits, a: Bits)
    requires FloatingClear(ps, v)
    ensures a in Expand(ps, v) <==> AgreesOff(ps, v, a)
  {
    if ps == [] {
      if AgreesOff(ps, v, a) {
        assert a == v;
      }
    } else {
      var p, rest := ps[0], ps[1..];
      var v' := v[p := true];
      FloatingClearRest(ps, v);
      ExpandMembers(rest, v, a);
      ExpandMembers(rest, v', a);
      if AgreesOff(ps, v, a) {
        if a[p] {
          assert AgreesOff(rest, v', a);
        } else {
          assert AgreesOff(rest, v, a);
        }
      }
      if AgreesOff(rest, v, a) || AgreesOff(rest, v', a) {
        assert AgreesOff(ps, v, a);
      }
    }
  }

  predicate Distinct<T(==)>(s: seq<T>) { forall i, j :: 0 <= i < j < |s| ==> s[i] != s[j] }

  /** No address is produced twice, so there are 2^#X different ones. */
  lemma {:induction false} ExpandDistinct(ps: seq<nat>, v: Bits)
    requires FloatingClear(ps, v)
    ensures Distinct(Expand(ps, v))
  {
    if ps != [] {
      var p, rest := ps[0], ps[1..];
      var v' := v[p := true];
      FloatingClearRest(ps, v);
      ExpandDistinct(rest, v);
      ExpandDistinct(rest, v');
      var lo, hi := Expand(rest, v), Expand(rest, v');
      forall i, j | 0 <= i < |lo| && 0 <= j < |hi| ensures lo[i] != hi[j] {
        ExpandMembers(rest, v, lo[i]);
        ExpandMembers(rest, v', hi[j]);
      }
      var all := lo + hi;
      forall i, j | 0 <= i < j < |all| ensures all[i] != all[j] {
        if j < |lo| {
          assert all[i] == lo[i] && all[j] == lo[j];
        } else if i >= |lo| {
          assert all[i] == hi[i - |lo|] && all[j] == hi[j - |lo|];
        } else {
          assert all[i] == lo[i] && all[j] == hi[j - |lo|];
        }
      }
    }
  }

  /** The addresses for a write at `index` under `mask`. */
  function Addresses(mask: string, index: nat): seq<Bits>
    requires |mask| == Width
  {
    Expand(XPositions(mask, Width), Base(mask, ToBits(index)))
  }

  /** `applyFloatingMask`: one pass over the mask builds the fixed part and
      the floating positions, then the recursion lists the addresses. */
  method ApplyFloatingMask(mask: string, index: nat) returns (addrs: seq<Bits>)
    requires |mask| == Width
    ensures addrs == Addresses(mask, index)
  {
    var idx := ToBits(index);
    var base: Bits := seq(Width, _ => false);
    var floating: seq<nat> := [];
    var i := 0;
    while i < Width
      invariant 0 <= i <= Width && floating == XPositions(mask, i)
      invariant BaseSoFar(mask, idx, base, i)
    {
      var bitPosition := Width - 1 - i;
      ghost var prev := base;
      if mask[i] == '0' {
        base := base[bitPosition := idx[bitPosition]];
      } else if mask[i] == '1' {
        base := base[bitPosition := true];
      } else if mask[i] == 'X' {
        floating := floating + [bitPosition];
      }
      BaseStep(mask, idx, prev, i, base);
      i := i + 1;
    }
    BaseDone(mask, idx, base);
    addrs := Expand(floating, base);
  }

  /** The low `i` bits of `base` are the fixed part's, the others clear. */
  predicate BaseSoFar(mask: string, idx: Bits, base: Bits, i: nat)
    requires |mask| == Width && IsWord(idx)
  {
    IsWord(base) && forall p :: 0 <= p < Width ==>
      base[p] == if p >= Width - i then Base(mask, idx)[p] else false
  }

  /** Mask character i settles bit `Width - 1 - i` of the fixed part. */
  lemma BaseStep(mask: string, idx: Bits, base: Bits, i: nat, base': Bits)
    requires |mask| == Width && IsWord(idx) && i < Width && BaseSoFar(mask, idx, base, i)
    requires base' == if mask[i] == '0' then base[Width - 1 - i := idx[Width - 1 - i]]
      else if mask[i] == '1' then base[Width - 1 - i := true] else base
    ensures BaseSoFar(mask, idx, base', i + 1)
  {
    forall p | 0 <= p < Width
      ensures base'[p] == if p >= Width - (i + 1) then Base(mask, idx)[p] else false
    {
      if p != Width - 1 - i {
        assert base'[p] == base[p];
      }
    }
  }

  lemma BaseDone(mask: string, idx: Bits, base: Bits)
    requires |mask| == Width && IsWord(idx) && BaseSoFar(mask, idx, base, Width)
    ensures base == Base(mask, idx)
  {
  }

  /** What an address of a write is: bit p is set under '1', the index's
      bit under '0', free under 'X', and clear under any other character. */
  predicate Fits(mask: string, index: nat, a: Bits)
    requires |mask| == Width
  {
    IsWord(a) && forall p :: 0 <= p < Width ==>
      (MaskAt(mask, p) == '1' ==> a[p]) &&
      (MaskAt(mask, p) == '0' ==> a[p] == ToBits(index)[p]) &&
      (MaskAt(mask, p) !in "01X" ==> !a[p])
  }

  /** The addresses are exactly the fitting words, without repetition, and
      there are 2^#X of them (one when there is no X). */
  lemma AddressesMeaning(mask: string, index: nat)
    requires |mask| == Width
    ensures forall a :: a in Addresses(mask, index) <==> Fits(mask, index, a)
    ensures Distinct(Addresses(mask, index))
    ensures |Addresses(mask, index)| == Pow(2, |XPositions(mask, Width)|)
  {
    var ps, v := XPositions(mask, Width), Base(mask, ToBits(index));
    assert FloatingClear(ps, v);
    forall a ensures a in Addresses(mask, index) <==> Fits(mask, index, a) {
      ExpandMembers(ps, v, a);
      FitsAgrees(mask, index, a);
    }
    ExpandDistinct(ps, v);
  }

  lemma FitsAgrees(mask: string, index: nat, a: Bits)
    requires |mask| == Width
    ensures Fits(mask, index, a) <==> AgreesOff(XPositions(mask, Width), Base(mask, ToBits(index)), a)
  {
    var ps, v := XPositions(mask, Width), Base(mask, ToBits(index));
    if AgreesOff(ps, v, a) {
      forall p | 0 <= p < Width
        ensures (MaskAt(mask, p) == '1' ==> a[p]) &&
          (MaskAt(mask, p) == '0' ==> a[p] == ToBits(index)[p]) &&
          (MaskAt(mask, p) !in "01X" ==> !a[p])
      {
        FitsAgreesAt(mask, index, a, p);
      }
    }
    if Fits(mask, index, a) {
      forall q | 0 <= q < |v| && q !in ps ensures a[q] == v[q] {
        FitsAgreesAt(mask, index, a, q);
      }
    }
  }

  /** FitsAgrees at one bit: off the floating positions the fixed part's
      bit is what the mask character asks for. */
  lemma FitsAgreesAt(mask: string, index: nat, a: Bits, p: nat)
    requires |mask| == Width && IsWord(a) && p < Width
    ensures var v := Base(mask, ToBits(index));
      ((MaskAt(mask, p) == '1' ==> a[p]) &&
       (MaskAt(mask, p) == '0' ==> a[p] == ToBits(index)[p]) &&
       (MaskAt(mask, p) !in "01X" ==> !a[p])) <==>
      (p !in XPositions(mask, Width) ==> a[p] == v[p])
  {
    var ps := XPositions(mask, Width);
    assert p in ps <==> MaskAt(mask, p) == 'X';
  }

  /** Each address stands for a number below 2^36. */
  lemma AddressBound(mask: string, index: nat, a: Bits)
    requires |mask| == Width && a in Addresses(mask, index)
    ensures FromBits(a) < Pow(2, 36)
  {
    AddressesMeaning(mask, index);
    FromBitsBound(a);
  }

  /** `mask.startsWith("XXXXXXXXX")`. */
  predicate Skips(mask: string) { |mask| >= 9 && forall i :: 0 <= i < 9 ==> mask[i] == 'X' }

  datatype Answer = Skipped | Total(sum: int)

  /** The memory after writing v at every address of a list. */
  function WriteAll(mem: map<Bits, int>, addrs: seq<Bits>, v: int): (m: map<Bits, int>)
    ensures forall a :: a in m <==> a in mem || a in addrs
    ensures forall a :: a in addrs ==> m[a] == v
    ensures forall a :: a in mem && a !in addrs ==> m[a] == mem[a]
    decreases |addrs|
  {
    if addrs == [] then mem else WriteAll(mem[addrs[0] := v], addrs[1..], v)
  }

  /** The memory and mask after the lines, or `None` once a mask skips. */
  function Run2(lines: seq<Line>): Option<(string, map<Bits, int>)>
    requires WellFormed(lines)
  {
    if lines == [] then Some((seq(Width, _ => '0'), map[]))
    else
      var init := lines[..|lines| - 1];
      assert forall k :: 0 <= k < |init| ==> init[k] == lines[k];
      var prev := Run2(init);
      if prev.None? then None
      else
        var (mask, mem) := prev.value;
        match lines[|lines| - 1]
        case Mask(m) => if Skips(m) then None else Some((m, mem))
        case Mem(a, v) => if |mask| == Width then Some((mask, WriteAll(mem, Addresses(mask, a), v))) else None
        case Other(_) => prev
  }

  predicate SkipsSomewhere(lines: seq<Line>)
  {
    exists k :: 0 <= k < |lines| && lines[k].Mask? && Skips(lines[k].mask)
  }

  /** Run2 gives up exactly at a skipping mask, and keeps a 36-character
      mask otherwise. */
  lemma {:induction false} Run2Defined(lines: seq<Line>)
    requires WellFormed(lines)
    ensures Run2(lines).None? <==> SkipsSomewhere(lines)
    ensures Run2(lines).Some? ==> |Run2(lines).value.0| == Width
  {
    if lines != [] {
      var init := lines[..|lines| - 1];
      assert forall k :: 0 <= k < |init| ==> init[k] == lines[k];
      Run2Defined(init);
      if SkipsSomewhere(lines) && !SkipsSomewhere(init) {
        var k :| 0 <= k < |lines| && lines[k].Mask? && Skips(lines[k].mask);
        assert k == |lines| - 1;
      }
      if SkipsSomewhere(init) {
        var k :| 0 <= k < |init| && init[k].Mask? && Skips(init[k].mask);
        assert lines[k] == init[k];
      }
    }
  }

  /** Part2: each write stores the value at every address its floating
      mask yields; a mask starting with nine X's gives up. Other lines are
      ignored. */
  method Part2(lines: seq<Line>) returns (r: Answer)
    requires WellFormed(lines)
    ensures r.Skipped? <==> SkipsSomewhere(lines)
    ensures r.Total? ==> Run2(lines).Some? && r.sum == ValuesSum(Run2(lines).value.1)
  {
    var mask: string := seq(Width, _ => '0');
    var mem: map<Bits, int> := map[];
    var k := 0;
    while k < |lines|
      invariant 0 <= k <= |lines| && |mask| == Width
      invariant Run2(lines[..k]) == Some((mask, mem))
    {
      Run2Step(lines, k, mask, mem);
      match lines[k] {
      case Mask(m) =>
        if Skips(m) {
          return Skipped;
        }
        mask := m;
      case Mem(a, v) =>
        var addrs := ApplyFloatingMask(mask, a);
        mem := WriteEach(mem, addrs, v);
      case Other(_) =>
      }
      k := k + 1;
    }
    assert lines[..k] == lines;
    Run2Defined(lines);
    var total := SumValues(mem);
    r := Total(total);
  }

  /** One line of Part2's loop, in terms of Run2: a skipping mask gives up
      on the whole input. */
  lemma Run2Step(lines: seq<Line>, k: nat, mask: string, mem: map<Bits, int>)
    requires WellFormed(lines) && k < |lines| && |mask| == Width
    requires Run2(lines[..k]) == Some((mask, mem))
    ensures WellFormed(lines[..k + 1])
    ensures lines[k].Mask? && Skips(lines[k].mask) ==> SkipsSomewhere(lines)
    ensures lines[k].Mask? && !Skips(lines[k].mask) ==> Run2(lines[..k + 1]) == Some((lines[k].mask, mem))
    ensures lines[k].Mem? ==>
      Run2(lines[..k + 1]) == Some((mask, WriteAll(mem, Addresses(mask, lines[k].addr), lines[k].value)))
    ensures lines[k].Other? ==> Run2(lines[..k + 1]) == Some((mask, mem))
  {
    var pre := lines[..k + 1];
    assert pre[..k] == lines[..k] && pre[k] == lines[k];
    assert forall j :: 0 <= j < |pre| ==> pre[j] == lines[j];
  }

  /** The write loop of Part2: the value stored at each address in turn. */
  method WriteEach(mem: map<Bits, int>, addrs: seq<Bits>, v: int) returns (mem': map<Bits, int>)
    ensures mem' == WriteAll(mem, addrs, v)
  {
    mem' := mem;
    var j := 0;
    while j < |addrs|
      invariant 0 <= j <= |addrs|
      invariant WriteAll(mem, addrs, v) == WriteAll(mem', addrs[j..], v)
    {
      assert addrs[j..][1..] == addrs[j + 1..];
      mem' := mem'[addrs[j] := v];
      j := j + 1;
    }
  }

  /** After a write, every address fitting the mask holds the value, and
      every other address keeps its earlier value. */
  lemma WriteMeaning(lines: seq<Line>, a: nat, v: nat)
    requires WellFormed(lines + [Mem(a, v)]) && Run2(lines + [Mem(a, v)]).Some?
    ensures WellFormed(lines) && Run2(lines).Some?
    ensures var (mask, mem) := Run2(lines).value;
      var mem' := Run2(lines + [Mem(a, v)]).value.1;
      |mask| == Width &&
      (forall b :: Fits(mask, a, b) ==> b in mem' && mem'[b] == v) &&
      (forall b :: b in mem && !Fits(mask, a, b) ==> b in mem' && mem'[b] == mem[b])
  {
    var all := lines + [Mem(a, v)];
    assert all[..|all| - 1] == lines;
    assert forall k :: 0 <= k < |lines| ==> lines[k] == all[k];
    Run2Defined(lines);
    AddressesMeaning(Run2(lines).value.0, a);
  }
}
