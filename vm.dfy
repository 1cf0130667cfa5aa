/** The virtual machine (src/vm.c): runs an instruction list over a global
    `char` buffer and a register file that grows on demand. */
module Vm {
  import opened Common
  import opened Ir

  // ---------------------------------------------------------------------
  // Bytes
  // ---------------------------------------------------------------------

  function Pow256(k: nat): (r: int)
    ensures r > 0
  {
    if k == 0 then 1 else 256 * Pow256(k - 1)
  }

  /** `(value >> (8 * k)) & 0xff`; an arithmetic right shift is a floor
      division. */
  function ByteOf(value: int, k: nat): (b: int)
    ensures 0 <= b < 256
  {
    (value / Pow256(k)) % 256
  }

  /** What a `char` holds after the byte `b` is assigned to it: on a
      platform where `char` is signed, bytes from 0x80 up become negative. */
  function CharOf(b: int, signedChar: bool): int {
    if signedChar && b >= 128 then b - 256 else b
  }

  /** The `size` chars the store loop writes for `value`, most significant
      byte first. */
  function Encode(value: int, size: nat, signedChar: bool): (e: seq<int>)
    ensures |e| == size
  {
    seq(size, i requires 0 <= i < size => CharOf(ByteOf(value, size - 1 - i), signedChar))
  }

  /** The buffer after `GLOBAL_LOAD_CONST`/`GLOBAL_LOAD` of `value`. */
  function Store(mem: seq<int>, offset: int, size: int, value: int, signedChar: bool): (r: seq<int>)
    requires 0 <= offset && 0 <= size && offset + size <= |mem|
    ensures |r| == |mem|
    ensures forall j :: 0 <= j < |mem| && !(offset <= j < offset + size) ==> r[j] == mem[j]
    ensures forall j :: offset <= j < offset + size ==> r[j] == CharOf(ByteOf(value, offset + size - 1 - j), signedChar)
  {
    mem[..offset] + Encode(value, size, signedChar) + mem[offset + size..]
  }

  /** The `LOAD_GLOBAL` loop: `v = (v << 8) + c` over the chars, in 64-bit
      arithmetic. */
  function Fold(cs: seq<int>): (v: int)
    ensures IsInt64(v)
  {
    if |cs| == 0 then 0 else Wrap64(Fold(cs[..|cs| - 1]) * 256 + cs[|cs| - 1])
  }

  /** `LOAD_GLOBAL` of `size` bytes at `offset`. */
  function Load(mem: seq<int>, offset: int, size: int): int
    requires 0 <= offset && 0 <= size && offset + size <= |mem|
  {
    Fold(mem[offset..offset + size])
  }

  // ---------------------------------------------------------------------
  // Registers
  // ---------------------------------------------------------------------

  /** The value of register `j`; registers never written read as 0. */
  function Reg(regs: seq<int>, j: int): int {
    if 0 <= j < |regs| then regs[j] else 0
  }

  /** `realloc` of the register array to `index + 1` slots when `index` is
      beyond it; the count never shrinks. */
  function Grown(regs: seq<int>, index: int): (g: seq<int>)
    requires index >= 0
    ensures |g| == if index < |regs| then |regs| else index + 1
    ensures forall j :: Reg(g, j) == Reg(regs, j)
  {
    if index < |regs| then regs else regs + seq(index + 1 - |regs|, _ => 0)
  }

  /** `register_get`: the register's value and the grown file. */
  function RegisterGet(regs: seq<int>, index: int): (r: Result<(seq<int>, int)>)
    ensures r.Ok? <==> index >= 0
    ensures r.Err? ==> r.error == RegisterFault
    ensures r.Ok? ==> |r.value.0| >= |regs| && index < |r.value.0| && r.value.1 == Reg(regs, index)
    ensures r.Ok? ==> forall j :: Reg(r.value.0, j) == Reg(regs, j)
  {
    if index < 0 then Err(RegisterFault)
    else
      var g := Grown(regs, index);
      Ok((g, g[index]))
  }

  /** `register_set`: only register `index` changes. */
  function RegisterSet(regs: seq<int>, index: int, value: int): (r: Result<seq<int>>)
    ensures r.Ok? <==> index >= 0
    ensures r.Err? ==> r.error == RegisterFault
    ensures r.Ok? ==> |r.value| >= |regs| && index < |r.value|
    ensures r.Ok? ==> forall j :: Reg(r.value, j) == if j == index then value else Reg(regs, j)
  {
    if index < 0 then Err(RegisterFault)
    else Ok(Grown(regs, index)[index := value])
  }

  // ---------------------------------------------------------------------
  // The machine, as a specification
  // ---------------------------------------------------------------------

  /** The global buffer (None before `GLOBAL_ALLOC`), the registers, and the
      values `PRINT` wrote. */
  datatype Machine = Machine(global: Option<seq<int>>, regs: seq<int>, output: seq<int>)

  const Boot: Machine := Machine(None, [], [])

  /** `size` bytes at `offset` lie inside an allocated buffer. */
  predicate InBuffer(global: Option<seq<int>>, offset: int, size: int) {
    global.Some? && 0 <= offset && 0 <= size && offset + size <= |global.value|
  }

  /** The store loop; it touches nothing when `size` is not positive and
      writes outside the buffer otherwise, which is a fault. */
  function StoreStep(m: Machine, offset: int, size: int, value: int, signedChar: bool): Result<Machine> {
    if size <= 0 then Ok(m)
    else if !InBuffer(m.global, offset, size) then Err(MemoryFault)
    else Ok(m.(global := Some(Store(m.global.value, offset, size, value, signedChar))))
  }

  /** The load loop. */
  function LoadStep(global: Option<seq<int>>, offset: int, size: int): Result<int> {
    if size <= 0 then Ok(0)
    else if !InBuffer(global, offset, size) then Err(MemoryFault)
    else Ok(Load(global.value, offset, size))
  }

  /** `ADD` and `SUB`: both operands are read, left first, then the
      destination is set. Signed overflow wraps. */
  function ArithStep(m: Machine, ins: Instr, plus: bool): Result<Machine> {
    var left :- RegisterGet(m.regs, ins.arg2);
    var right :- RegisterGet(left.0, ins.arg3);
    var regs :- RegisterSet(right.0, ins.arg1, Wrap64(if plus then left.1 + right.1 else left.1 - right.1));
    Ok(m.(regs := regs))
  }

  /** One pass of the `run_vm` loop body. */
  function Step(m: Machine, ins: Instr, signedChar: bool): Result<Machine> {
    match ins.op
    case Nop => Ok(m)
    case GlobalAlloc =>
      if ins.arg1 < 0 then Err(MemoryFault) else Ok(m.(global := Some(seq(ins.arg1, _ => 0))))
    case GlobalLoadConst => StoreStep(m, ins.arg1, ins.arg2, ins.arg3, signedChar)
    case GlobalLoad =>
      var got :- RegisterGet(m.regs, ins.arg3);
      StoreStep(m.(regs := got.0), ins.arg1, ins.arg2, got.1, signedChar)
    case LoadGlobal =>
      var v :- LoadStep(m.global, ins.arg2, ins.arg3);
      var regs :- RegisterSet(m.regs, ins.arg1, v);
      Ok(m.(regs := regs))
    case Add => ArithStep(m, ins, true)
    case Sub => ArithStep(m, ins, false)
    case Print =>
      var got :- RegisterGet(m.regs, ins.arg1);
      Ok(m.(regs := got.0, output := m.output + [got.1]))
  }

  /** The instructions run once each, in list order; the first fault stops
      the run. */
  function Exec(m: Machine, code: seq<Instr>, signedChar: bool): Result<Machine>
    decreases |code|
  {
    if |code| == 0 then Ok(m)
    else
      var before :- Exec(m, code[..|code| - 1], signedChar);
      Step(before, code[|code| - 1], signedChar)
  }

  /** Running `a + b` is running `a`, then `b` from where `a` stopped. */
  lemma {:induction false} ExecAppend(m: Machine, a: seq<Instr>, b: seq<Instr>, signedChar: bool)
    ensures Exec(m, a + b, signedChar) ==
      if Exec(m, a, signedChar).Err? then Exec(m, a, signedChar)
      else Exec(Exec(m, a, signedChar).value, b, signedChar)
    decreases |b|
  {
    if |b| == 0 {
      assert a + b == a;
    } else {
      assert (a + b)[..|a + b| - 1] == a + b[..|b| - 1];
      ExecAppend(m, a, b[..|b| - 1], signedChar);
    }
  }

  /** Running `code + [ins]` is running `code`, then `ins`. */
  lemma ExecLast(m: Machine, code: seq<Instr>, ins: Instr, signedChar: bool)
    ensures Exec(m, code + [ins], signedChar) ==
      if Exec(m, code, signedChar).Err? then Exec(m, code, signedChar)
      else Step(Exec(m, code, signedChar).value, ins, signedChar)
  {
    assert (code + [ins])[..|code|] == code;
  }

  /** A fault in a prefix is the fault of the whole run. */
  lemma {:induction false} ExecPrefixFails(m: Machine, code: seq<Instr>, k: nat, signedChar: bool)
    requires k <= |code| && Exec(m, code[..k], signedChar).Err?
    ensures Exec(m, code, signedChar) == Exec(m, code[..k], signedChar)
    decreases |code|
  {
    if k < |code| {
      assert code[..|code| - 1][..k] == code[..k];
      ExecPrefixFails(m, code[..|code| - 1], k, signedChar);
    } else {
      assert code[..k] == code;
    }
  }

  // ---------------------------------------------------------------------
  // What a store followed by a load gives back
  // ---------------------------------------------------------------------

  /** The fold without 64-bit wrap-around. */
  function FoldRaw(cs: seq<int>): int {
    if |cs| == 0 then 0 else FoldRaw(cs[..|cs| - 1]) * 256 + cs[|cs| - 1]
  }

  lemma {:induction false} FoldIsWrapped(cs: seq<int>)
    ensures Fold(cs) == Wrap64(FoldRaw(cs))
    decreases |cs|
  {
    if |cs| > 0 {
      var p := cs[..|cs| - 1];
      var b := cs[|cs| - 1];
      FoldIsWrapped(p);
      var x := FoldRaw(p);
      var c := (Wrap64(x) - x) / Two64;
      assert Wrap64(x) == x + c * Two64;
      assert Wrap64(x) * 256 + b == x * 256 + b + (256 * c) * Two64;
      Wrap64Shift(x * 256 + b, 256 * c);
    }
  }

  lemma DivDiv(v: int, a: int, b: int)
    requires a > 0 && b > 0
    ensures (v / a) / b == v / (a * b)
  {
    var q, r := v / a, v % a;
    var t, u := q / b, q % b;
    assert v == a * q + r;
    assert q == b * t + u;
    assert v == (a * b) * t + (a * u + r) by {
      assert a * q == a * (b * t) + a * u;
    }
    assert a * u <= a * (b - 1) by {
      MulLeq(a, u, b - 1);
    }
    DivModUnique(v, a * b, t, a * u + r);
  }

  lemma MulLeq(a: int, x: int, y: int)
    requires a >= 0 && x <= y
    ensures a * x <= a * y
  {
  }

  lemma ModSplit(q: int, p: int)
    requires p > 0
    ensures ((q / 256) % p) * 256 + q % 256 == q % (p * 256)
  {
    var t, r0 := q / 256, q % 256;
    var w, t1 := t / p, t % p;
    assert q == 256 * t + r0;
    assert t == p * w + t1;
    assert q == (p * 256) * w + (t1 * 256 + r0) by {
      assert 256 * t == 256 * (p * w) + 256 * t1;
    }
    assert t1 * 256 <= (p - 1) * 256 by {
      MulLeq(256, t1, p - 1);
    }
    DivModUnique(q, p * 256, w, t1 * 256 + r0);
  }

  /** The first `k` bytes of the unsigned encoding spell the top `k` bytes of
      the value. */
  lemma {:induction false} FoldRawEncode(value: int, size: nat, k: nat)
    requires k <= size
    ensures FoldRaw(Encode(value, size, false)[..k]) == (value / Pow256(size - k)) % Pow256(k)
    decreases k
  {
    var e := Encode(value, size, false);
    if k > 0 {
      FoldRawEncode(value, size, k - 1);
      assert e[..k][..k - 1] == e[..k - 1];
      var q := value / Pow256(size - k);
      assert e[k - 1] == CharOf(ByteOf(value, size - k), false);
      assert e[..k][k - 1] == q % 256;
      assert FoldRaw(e[..k]) == FoldRaw(e[..k - 1]) * 256 + q % 256;
      assert Pow256(size - (k - 1)) == Pow256(size - k) * 256;
      DivDiv(value, Pow256(size - k), 256);
      assert FoldRaw(e[..k - 1]) == (q / 256) % Pow256(k - 1);
      ModSplit(q, Pow256(k - 1));
      assert Pow256(k) == Pow256(k - 1) * 256;
    }
  }

  /** With unsigned `char`, loading what was stored gives back the value
      modulo 256^size, read as a 64-bit integer. */
  lemma LoadStoreUnsigned(mem: seq<int>, offset: int, size: int, value: int)
    requires 0 <= offset && 0 <= size && offset + size <= |mem|
    ensures Load(Store(mem, offset, size, value, false), offset, size) == Wrap64(value % Pow256(size))
  {
    var s := Store(mem, offset, size, value, false);
    var e := Encode(value, size, false);
    assert s[offset..offset + size] == e;
    FoldIsWrapped(e);
    FoldRawEncode(value, size, size);
    assert e[..size] == e;
  }

  /** Writing the next char of `e` extends the written prefix by one. */
  lemma WriteNext(mem: seq<int>, offset: int, e: seq<int>, i: int)
    requires 0 <= offset && 0 <= i < |e| && offset + |e| <= |mem|
    ensures (mem[..offset] + e[..i] + mem[offset + i..])[offset + i := e[i]]
         == mem[..offset] + e[..i + 1] + mem[offset + i + 1..]
  {
    var a := (mem[..offset] + e[..i] + mem[offset + i..])[offset + i := e[i]];
    var b := mem[..offset] + e[..i + 1] + mem[offset + i + 1..];
    assert |a| == |b|;
    forall j | 0 <= j < |a|
      ensures a[j] == b[j]
    {
      if j < offset {
      } else if j < offset + i {
        assert a[j] == e[j - offset] == b[j];
      } else if j == offset + i {
      } else {
        assert a[j] == mem[j] == b[j];
      }
    }
  }

  /** A store leaves every byte outside its range as it was, so a load from
      a disjoint range is unaffected. */
  lemma LoadAfterDisjointStore(mem: seq<int>, o1: int, s1: int, value: int, signedChar: bool, o2: int, s2: int)
    requires 0 <= o1 && 0 <= s1 && o1 + s1 <= |mem|
    requires 0 <= o2 && 0 <= s2 && o2 + s2 <= |mem|
    requires o1 + s1 <= o2 || o2 + s2 <= o1
    ensures Load(Store(mem, o1, s1, value, signedChar), o2, s2) == Load(mem, o2, s2)
  {
    var s := Store(mem, o1, s1, value, signedChar);
    assert s[o2..o2 + s2] == mem[o2..o2 + s2];
  }

  // ---------------------------------------------------------------------
  // The load as written does not undo the store
  // ---------------------------------------------------------------------

  /** With signed `char`, the int 200 stored in four bytes loads back as
      -56: the byte 0xC8 is sign-extended. */
  lemma SignedCharReadBack()
    ensures Load(Store([0, 0, 0, 0], 0, 4, 200, true), 0, 4) == -56
  {
    EncodeTwoHundred();
    var s := Store([0, 0, 0, 0], 0, 4, 200, true);
    assert s == [0, 0, 0, -56];
    assert s[0..4] == [0, 0, 0, -56];
    FoldZerosThen(-56);
  }

  /** With signed `char`, 200 in four bytes is stored as 0, 0, 0, -56. */
  lemma EncodeTwoHundred()
    ensures Encode(200, 4, true) == [0, 0, 0, -56]
  {
    var e := Encode(200, 4, true);
    assert Pow256(1) == 256 && Pow256(2) == 65536 && Pow256(3) == 16777216;
    assert e[0] == CharOf(ByteOf(200, 3), true) == 0;
    assert e[1] == CharOf(ByteOf(200, 2), true) == 0;
    assert e[2] == CharOf(ByteOf(200, 1), true) == 0;
    assert e[3] == CharOf(ByteOf(200, 0), true) == -56;
  }

  /** Three zero chars followed by `c` fold to `c`. */
  lemma FoldZerosThen(c: int)
    requires IsInt64(c)
    ensures Fold([0, 0, 0, c]) == c
  {
    assert [0, 0, 0, c][..3] == [0, 0, 0];
    assert [0, 0, 0][..2] == [0, 0];
    assert [0, 0][..1] == [0];
    assert [0][..0] == [];
    assert Fold([0]) == 0;
    assert Fold([0, 0]) == 0;
    assert Fold([0, 0, 0]) == 0;
  }

  /** Even with unsigned `char`, the int -1 stored in four bytes loads back
      as 4294967295: the load does not sign-extend from the slot's width. */
  lemma NegativeReadBack()
    ensures Load(Store([0, 0, 0, 0], 0, 4, -1, false), 0, 4) == 4294967295
  {
    LoadStoreUnsigned([0, 0, 0, 0], 0, 4, -1);
    assert Pow256(4) == 4294967296;
  }

  /** With signed `char` the round trip still holds when every byte of
      the stored value is below 0x80. */
  lemma LoadStoreSmallBytes(mem: seq<int>, offset: int, size: int, value: int)
    requires 0 <= offset && 0 <= size && offset + size <= |mem|
    requires forall k :: 0 <= k < size ==> ByteOf(value, k) < 128
    ensures Load(Store(mem, offset, size, value, true), offset, size) == Wrap64(value % Pow256(size))
  {
    assert Encode(value, size, true) == Encode(value, size, false) by {
      forall i | 0 <= i < size
        ensures Encode(value, size, true)[i] == Encode(value, size, false)[i]
      {
        var b := ByteOf(value, size - 1 - i);
        assert b < 128;
        assert Encode(value, size, true)[i] == CharOf(b, true) == b;
        assert Encode(value, size, false)[i] == CharOf(b, false) == b;
      }
    }
    LoadStoreUnsigned(mem, offset, size, value);
  }

  lemma {:induction false} PowAdd(a: nat, b: nat)
    ensures Pow256(a + b) == Pow256(a) * Pow256(b)
    decreases a
  {
    if a > 0 {
      PowAdd(a - 1, b);
      assert Pow256(a + b) == 256 * Pow256(a - 1 + b);
      assert 256 * (Pow256(a - 1) * Pow256(b)) == (256 * Pow256(a - 1)) * Pow256(b);
    }
  }

  lemma DivModSplit(a: int, d: int)
    requires d > 0
    ensures a == d * (a / d) + a % d && 0 <= a % d < d
  {
  }

  /** Dividing `pk * rest * q + m` by `pk` splits off the multiple. */
  lemma DivPrefix(q: int, m: int, pk: int, rest: int)
    requires pk > 0 && rest > 0
    ensures (pk * rest * q + m) / pk == rest * q + m / pk
  {
    DivModSplit(m, pk);
    assert pk * rest * q + m == pk * (rest * q + m / pk) + m % pk;
    DivModUnique(pk * rest * q + m, pk, rest * q + m / pk, m % pk);
  }

  /** Adding a multiple of 256 does not change a value's low byte. */
  lemma LowByteShift(x: int, a: int)
    ensures (256 * x + a) % 256 == a % 256
  {
    DivModSplit(a, 256);
    assert 256 * x + a == (x + a / 256) * 256 + a % 256;
    DivModUnique(256 * x + a, 256, x + a / 256, a % 256);
  }

  /** Byte `k` of a value depends only on the value modulo 256^size when
      `k < size`. */
  lemma ByteOfMod(value: int, size: nat, k: nat)
    requires k < size
    ensures ByteOf(value % Pow256(size), k) == ByteOf(value, k)
  {
    var x := Pow256(size - k - 1) * (value / Pow256(size));
    DivByLowerPow(value, size, k);
    LowByteShift(x, (value % Pow256(size)) / Pow256(k));
  }

  /** Dividing by 256^k splits `value` into its part above 256^size and
      the part of the remainder modulo 256^size above 256^k. */
  lemma DivByLowerPow(value: int, size: nat, k: nat)
    requires k < size
    ensures value / Pow256(k)
         == 256 * (Pow256(size - k - 1) * (value / Pow256(size))) + (value % Pow256(size)) / Pow256(k)
  {
    var p, pk, rest := Pow256(size), Pow256(k), Pow256(size - k);
    var q, m := value / p, value % p;
    DivModSplit(value, p);
    PowAdd(k, size - k);
    assert p * q == pk * rest * q;
    DivPrefix(q, m, pk, rest);
    assert rest == 256 * Pow256(size - k - 1);
    assert rest * q == 256 * (Pow256(size - k - 1) * q);
  }

  /** The store keeps only the low `8 * size` bits of the value. */
  lemma StoreDropsHighBits(mem: seq<int>, offset: int, size: int, value: int, signedChar: bool)
    requires 0 <= offset && 0 <= size && offset + size <= |mem|
    ensures Store(mem, offset, size, value, signedChar) == Store(mem, offset, size, value % Pow256(size), signedChar)
  {
    assert Encode(value, size, signedChar) == Encode(value % Pow256(size), size, signedChar) by {
      forall i | 0 <= i < size
        ensures Encode(value, size, signedChar)[i] == Encode(value % Pow256(size), size, signedChar)[i]
      {
        ByteOfMod(value, size, size - 1 - i);
      }
    }
  }

  // ---------------------------------------------------------------------
  // The machine
  // ---------------------------------------------------------------------

  /** `run_vm`'s static state: the `global` buffer, the `regs` array with
      its count, and the platform's signedness of `char`. */
  class Vm {
    const signedChar: bool
    var global: array?<int>
    var regs: seq<int>
    var output: seq<int>

    constructor (signedChar: bool)
      ensures this.signedChar == signedChar && global == null && regs == [] && output == []
    {
      this.signedChar := signedChar;
      global := null;
      regs := [];
      output := [];
    }

    function State(): Machine
      reads this, global
    {
      Machine(if global == null then None else Some(global[..]), regs, output)
    }

    /** `run_vm`: no buffer, no registers, then each instruction once, in
        order. */
    method RunVm(code: seq<Instr>) returns (r: Result<()>)
      modifies this
      ensures Exec(Boot, code, signedChar) == if r.Ok? then Ok(State()) else Err(r.error)
    {
      global := null;
      regs := [];
      output := [];
      for i := 0 to |code|
        invariant global != null ==> fresh(global)
        invariant Exec(Boot, code[..i], signedChar) == Ok(State())
      {
        assert code[..i + 1][..i] == code[..i];
        var step := Execute(code[i]);
        if step.Err? {
          ExecPrefixFails(Boot, code, i + 1, signedChar);
          return Err(step.error);
        }
      }
      assert code[..|code|] == code;
      return Ok(());
    }

    /** The `run_vm` loop body for one instruction. */
    method Execute(ins: Instr) returns (r: Result<()>)
      modifies this, global
      ensures global != null ==> global == old(global) || fresh(global)
      ensures Step(old(State()), ins, signedChar) == if r.Ok? then Ok(State()) else Err(r.error)
    {
      match ins.op {
        case Nop =>
          r := Ok(());
        case GlobalAlloc =>
          if ins.arg1 < 0 {
            return Err(MemoryFault);
          }
          global := new int[ins.arg1](_ => 0);
          assert global[..] == seq(ins.arg1, _ => 0);
          r := Ok(());
        case GlobalLoadConst =>
          r := WriteBytes(ins.arg1, ins.arg2, ins.arg3);
        case GlobalLoad =>
          var value :- RegisterRead(ins.arg3);
          r := WriteBytes(ins.arg1, ins.arg2, value);
        case LoadGlobal =>
          var value :- ReadBytes(ins.arg2, ins.arg3);
          r := RegisterWrite(ins.arg1, value);
        case Add =>
          var left :- RegisterRead(ins.arg2);
          var right :- RegisterRead(ins.arg3);
          r := RegisterWrite(ins.arg1, Wrap64(left + right));
        case Sub =>
          var left :- RegisterRead(ins.arg2);
          var right :- RegisterRead(ins.arg3);
          r := RegisterWrite(ins.arg1, Wrap64(left - right));
        case Print =>
          var value :- RegisterRead(ins.arg1);
          output := output + [value];
          r := Ok(());
      }
    }

    /** The store loop of `GLOBAL_LOAD_CONST` and `GLOBAL_LOAD`. */
    method WriteBytes(offset: int, size: int, value: int) returns (r: Result<()>)
      modifies global
      ensures StoreStep(old(State()), offset, size, value, signedChar) == if r.Ok? then Ok(State()) else Err(r.error)
    {
      if size <= 0 {
        return Ok(());
      }
      if global == null || offset < 0 || offset + size > global.Length {
        return Err(MemoryFault);
      }
      ghost var mem := global[..];
      ghost var e := Encode(value, size, signedChar);
      for i := 0 to size
        invariant global.Length == |mem|
        invariant global[..] == mem[..offset] + e[..i] + mem[offset + i..]
      {
        var msb := (value / Pow256(size - 1 - i)) % 256;
        assert e[i] == CharOf(msb, signedChar);
        WriteNext(mem, offset, e, i);
        global[i + offset] := CharOf(msb, signedChar);
      }
      assert e[..size] == e;
      return Ok(());
    }

    /** The load loop of `LOAD_GLOBAL`. */
    method ReadBytes(offset: int, size: int) returns (r: Result<int>)
      ensures LoadStep(State().global, offset, size) == r
    {
      if size <= 0 {
        return Ok(0);
      }
      if global == null || offset < 0 || offset + size > global.Length {
        return Err(MemoryFault);
      }
      var value := 0;
      for i := 0 to size
        invariant value == Fold(global[offset..offset + i])
      {
        assert global[offset..offset + i + 1][..i] == global[offset..offset + i];
        value := Wrap64(value * 256 + global[offset + i]);
      }
      return Ok(value);
    }

    /** `register_get`. */
    method RegisterRead(index: int) returns (r: Result<int>)
      modifies this
      ensures global == old(global) && output == old(output)
      ensures var spec := RegisterGet(old(regs), index);
        && (r.Ok? <==> spec.Ok?)
        && (r.Err? ==> r.error == spec.error)
        && (r.Ok? ==> r.value == spec.value.1 && regs == spec.value.0)
    {
      if index < 0 {
        return Err(RegisterFault);
      }
      if index >= |regs| {
        regs := regs + seq(index + 1 - |regs|, _ => 0);
      }
      return Ok(regs[index]);
    }

    /** `register_set`. */
    method RegisterWrite(index: int, value: int) returns (r: Result<()>)
      modifies this
      ensures global == old(global) && output == old(output)
      ensures var spec := RegisterSet(old(regs), index, value);
        && (r.Ok? <==> spec.Ok?)
        && (r.Err? ==> r.error == spec.error)
        && (r.Ok? ==> regs == spec.value)
    {
      if index < 0 {
        return Err(RegisterFault);
      }
      if index >= |regs| {
        regs := regs + seq(index + 1 - |regs|, _ => 0);
      }
      regs := regs[index := value];
      return Ok(());
    }
  }
}
