/** The binary AND section: the delta code, its writer and its reader.

    Bytes are numbers below 256; masks and shifts of the program are written as remainders and
    multiplications, and an `or` of disjoint bits as a sum. */
module Binary {
  import opened Aiger

  type Byte = b: nat | b < 256
  const WORD: nat := 0x1_0000_0000

  // ----- The code -----------------------------------------------------------------------------

  /** Seven bits a byte, least significant first; all bytes but the last have the top bit. */
  function Delta(d: nat): (bs: seq<Byte>)
    ensures |bs| >= 1
  {
    if d >= 128 then [d % 128 + 128] + Delta(d / 128) else [d]
  }

  /** The number a byte sequence stands for in the format. */
  function Digits(bs: seq<Byte>): nat {
    if |bs| == 0 then 0 else bs[0] % 128 + 128 * Digits(bs[1..])
  }

  ghost predicate IsCode(bs: seq<Byte>) {
    && |bs| >= 1
    && (forall k :: 0 <= k < |bs| - 1 ==> bs[k] >= 128)
    && bs[|bs| - 1] < 128
  }

  lemma {:induction false} DeltaIsCode(d: nat)
    ensures IsCode(Delta(d)) && Digits(Delta(d)) == d
  {
    if d >= 128 {
      DeltaIsCode(d / 128);
      var c, rest := d % 128, Delta(d / 128);
      assert Delta(d)[1..] == rest && Delta(d)[0] == c + 128;
      assert (c + 128) % 128 == c && d == c + 128 * (d / 128);
    }
  }

  lemma {:induction false} DeltaLength(d: nat, n: nat)
    requires d < Weight(n)
    ensures |Delta(d)| <= if n == 0 then 1 else n
  {
    if n > 0 && d >= 128 {
      DeltaLength(d / 128, n - 1);
    }
  }

  /** 128 to the power `i`. */
  function Weight(i: nat): nat {
    if i == 0 then 1 else 128 * Weight(i - 1)
  }

  lemma Weights()
    ensures Weight(0) == 1 && Weight(1) == 0x80 && Weight(2) == 0x4000 && Weight(3) == 0x20_0000 && Weight(4) == 0x1000_0000
    ensures Weight(5) == 0x8_0000_0000
  {
    assert Weight(2) == 128 * Weight(1);
    assert Weight(3) == 128 * Weight(2);
    assert Weight(4) == 128 * Weight(3);
    assert Weight(5) == 128 * Weight(4);
  }

  // ----- Reading one number ---------------------------------------------------------------------

  datatype Failure = UnexpectedEof | InvalidCode | InvalidDelta | ShiftTooWide
  datatype Outcome = Value(value: nat) | Fail(failure: Failure)
  datatype Decoded = Decoded(outcome: Outcome, next: nat)

  /** The bits `c`, shifted left by `7 * i` and truncated to an unsigned of 32 bits. */
  function Shifted(c: nat, i: nat): nat {
    (c * Weight(i)) % WORD
  }

  /** What the reader does from position `pos` with `i` bytes behind it.  Its test of the last byte
      asks for the sixth byte, not the fifth: five bytes may be truncated, and a sixth byte below 8
      is shifted by 35, which the language leaves undefined. */
  function Decode(bs: seq<Byte>, pos: nat, i: nat, res: nat): Decoded
    decreases |bs| - pos
  {
    if pos >= |bs| then Decoded(Fail(UnexpectedEof), pos)
    else if bs[pos] >= 128 then
      if i == 5 then Decoded(Fail(InvalidCode), pos)
      else Decode(bs, pos + 1, i + 1, res + Shifted(bs[pos] % 128, i))
    else if i == 5 then
      if bs[pos] >= 8 then Decoded(Fail(InvalidCode), pos) else Decoded(Fail(ShiftTooWide), pos)
    else Decoded(Value(res + Shifted(bs[pos], i)), pos + 1)
  }

  /** A code of at most five bytes is read as the number it stands for, truncated. */
  lemma {:induction false} DecodeCode(bs: seq<Byte>, pos: nat, n: nat, i: nat, res: nat)
    requires pos + n <= |bs| && IsCode(bs[pos..pos + n]) && i + n <= 5 && res < Weight(i)
    ensures Decode(bs, pos, i, res) == Decoded(Value((res + Weight(i) * Digits(bs[pos..pos + n])) % WORD), pos + n)
    decreases n
  {
    Weights();
    var code := bs[pos..pos + n];
    assert code[0] == bs[pos];
    var c := bs[pos] % 128;
    if n == 1 {
      assert Digits(code) == c + 128 * Digits(code[1..]);
      LastByte(c, i, res);
    } else {
      var rest := bs[pos + 1..pos + n];
      assert code[1..] == rest;
      assert forall k :: 0 <= k < |rest| ==> rest[k] == code[k + 1];
      MiddleByte(c, i, res, Digits(rest));
      DecodeCode(bs, pos + 1, n - 1, i + 1, res + Shifted(c, i));
    }
  }

  /** Which error is reported: the end of the file when it cuts a code of fewer than six bytes, an invalid
      code iff five bytes are continued and the sixth is 8 or more. */
  lemma {:induction false} FailureMeans(bs: seq<Byte>, pos: nat, i: nat, res: nat)
    requires pos <= |bs| && i <= 5
    ensures var r := Decode(bs, pos, i, res).outcome;
      && (r == Fail(UnexpectedEof) <==> |bs| - pos <= 5 - i && forall j :: pos <= j < |bs| ==> bs[j] >= 128)
      && (r == Fail(InvalidCode) <==>
            pos + 5 - i < |bs| && bs[pos + 5 - i] >= 8 && forall j :: pos <= j < pos + 5 - i ==> bs[j] >= 128)
      && r != Fail(InvalidDelta)
    decreases |bs| - pos
  {
    if pos < |bs| && bs[pos] >= 128 && i < 5 {
      FailureMeans(bs, pos + 1, i + 1, res + Shifted(bs[pos] % 128, i));
    }
  }

  lemma TopBits(c: nat)
    requires c < 128
    ensures (c * 0x1000_0000) % WORD == (c % 16) * 0x1000_0000
  {
    var q, r := c / 16, c % 16;
    assert c * 0x1000_0000 == r * 0x1000_0000 + WORD * q;
  }

  lemma LastByte(c: nat, i: nat, res: nat)
    requires c < 128 && i <= 4 && res < Weight(i)
    ensures res + Shifted(c, i) == (res + Weight(i) * c) % WORD
  {
    Weights();
    if i == 4 {
      TopBits(c);
      var q, r := c / 16, c % 16;
      assert res + 0x1000_0000 * c == (res + r * 0x1000_0000) + WORD * q;
    } else {
      SmallShift(c, i);
    }
  }

  lemma SmallShift(c: nat, i: nat)
    requires c < 128 && i <= 3
    ensures Weight(i) <= 0x20_0000 && Weight(i) * c <= 127 * Weight(i)
    ensures Shifted(c, i) == Weight(i) * c
  {
    Weights();
    assert i == 0 || i == 1 || i == 2 || i == 3;
  }

  lemma MiddleByte(c: nat, i: nat, res: nat, d: nat)
    requires c < 128 && i <= 3 && res < Weight(i)
    ensures res + Shifted(c, i) < Weight(i + 1)
    ensures res + Shifted(c, i) + Weight(i + 1) * d == res + Weight(i) * (c + 128 * d)
  {
    Weights();
  }

  /** Every 32-bit value takes at most five bytes and is read back exactly, wherever it stands. */
  lemma RoundTrip(bs: seq<Byte>, pos: nat, d: nat)
    requires d < WORD && pos + |Delta(d)| <= |bs| && bs[pos..pos + |Delta(d)|] == Delta(d)
    ensures |Delta(d)| <= 5
    ensures Decode(bs, pos, 0, 0) == Decoded(Value(d), pos + |Delta(d)|)
  {
    Weights();
    hide Decode, Delta;
    DeltaIsCode(d);
    DeltaLength(d, 5);
    DecodeCode(bs, pos, |Delta(d)|, 0, 0);
  }

  /** Nothing but a code of at most five bytes is read as a value. */
  lemma {:induction false} DecodedIsCode(bs: seq<Byte>, pos: nat, i: nat, res: nat)
    requires pos <= |bs| && i <= 5 && Decode(bs, pos, i, res).outcome.Value?
    ensures var next := Decode(bs, pos, i, res).next;
      pos < next <= |bs| && i + (next - pos) <= 5 && IsCode(bs[pos..next])
    decreases |bs| - pos
  {
    if bs[pos] >= 128 {
      DecodedIsCode(bs, pos + 1, i + 1, res + Shifted(bs[pos] % 128, i));
      var next := Decode(bs, pos, i, res).next;
      var code, rest := bs[pos..next], bs[pos + 1..next];
      assert forall k :: 0 < k < |code| ==> code[k] == rest[k - 1];
    }
  }

  ghost predicate CodeAt(bs: seq<Byte>, pos: nat, n: nat) {
    pos + n <= |bs| && IsCode(bs[pos..pos + n])
  }

  /** The reader accepts exactly the codes of at most five bytes. */
  lemma AcceptsExactly(bs: seq<Byte>, pos: nat)
    requires pos <= |bs|
    ensures Decode(bs, pos, 0, 0).outcome.Value? <==> exists n: nat :: n <= 5 && CodeAt(bs, pos, n)
  {
    if Decode(bs, pos, 0, 0).outcome.Value? {
      DecodedIsCode(bs, pos, 0, 0);
      assert CodeAt(bs, pos, Decode(bs, pos, 0, 0).next - pos);
    }
    forall n: nat | n <= 5 && CodeAt(bs, pos, n) ensures Decode(bs, pos, 0, 0).outcome.Value? {
      Weights();
      DecodeCode(bs, pos, n, 0, 0);
    }
  }

  /** The undefined shift happens exactly for five continued bytes and a sixth one below 8. */
  lemma {:induction false} UndefinedShift(bs: seq<Byte>, pos: nat, i: nat, res: nat)
    requires i <= 5
    ensures Decode(bs, pos, i, res).outcome == Fail(ShiftTooWide) <==>
      var last := pos + (5 - i);
      last < |bs| && bs[last] < 8 && forall k :: pos <= k < last ==> bs[k] >= 128
    decreases 5 - i
  {
    if pos < |bs| && bs[pos] >= 128 && i < 5 {
      UndefinedShift(bs, pos + 1, i + 1, res + Shifted(bs[pos] % 128, i));
    }
  }

  /** The reader shifts a signed integer.  On the code of a 32-bit number all shifts stay within its
      positive range iff the number does; otherwise the fifth byte, 8 or more, leaves it. */
  lemma ShiftsFitInt(d: nat)
    requires d < WORD
    ensures (forall k :: 0 <= k < |Delta(d)| ==> (Delta(d)[k] % 128) * Weight(k) < 0x8000_0000) <==> d < 0x8000_0000
    ensures d >= 0x8000_0000 <==> |Delta(d)| == 5 && Delta(d)[4] >= 8
  {
    Weights();
    DeltaIsCode(d);
    DeltaLength(d, 5);
    var bs := Delta(d);
    hide Delta, Digits, Weight;
    forall k | 0 <= k < |bs| && k <= 3 ensures (bs[k] % 128) * Weight(k) < 0x8000_0000 {
      SmallShift(bs[k] % 128, k);
    }
    DigitsSplit(bs);
    if |bs| < 5 {
      DigitsBound(bs);
      WeightGrows(|bs|, 4);
    } else {
      DigitsBound(bs[..4]);
      var last: nat, low := bs[4], Digits(bs[..4]);
      assert last % 128 == last && d == low + 0x1000_0000 * last;
    }
  }

  /** Reading back what was written shifts within the signed range whenever all literals fit into it. */
  lemma SectionShiftsFit(m: Model, i: nat)
    requires Reencoded(m) && 2 * NumVars(m) <= 0x8000_0000 && i < |m.ands|
    ensures var g := m.ands[i];
      forall d: nat, k :: (d == g.lhs - g.rhs0 || d == g.rhs0 - g.rhs1) && 0 <= k < |Delta(d)| ==>
        (Delta(d)[k] % 128) * Weight(k) < 0x8000_0000
  {
    var g := m.ands[i];
    assert g.lhs == 2 * (FirstAnd(m) + i) && g.lhs > g.rhs0 >= g.rhs1;
    ShiftsFitInt(g.lhs - g.rhs0);
    ShiftsFitInt(g.rhs0 - g.rhs1);
  }

  lemma DeltaCons(c: nat, d: nat)
    requires c < 128 && d >= 1
    ensures Delta(c + 128 * d) == [c + 128] + Delta(d)
  {
    assert (c + 128 * d) % 128 == c && (c + 128 * d) / 128 == d;
  }

  /** A code is the writer's code of its number iff its last byte is not a superfluous zero. */
  lemma {:induction false} CanonicalCode(bs: seq<Byte>)
    requires IsCode(bs)
    ensures bs == Delta(Digits(bs)) <==> |bs| == 1 || bs[|bs| - 1] != 0
    ensures |bs| == 1 || bs[|bs| - 1] != 0 ==> Digits(bs) >= bs[|bs| - 1]
  {
    var rest, c := bs[1..], bs[0] % 128;
    assert Digits(bs) == c + 128 * Digits(rest);
    if |bs| > 1 {
      assert forall k :: 0 <= k < |rest| ==> rest[k] == bs[k + 1];
      CanonicalCode(rest);
      CanonicalStep(bs, Digits(rest));
    }
  }

  lemma CanonicalStep(bs: seq<Byte>, d: nat)
    requires IsCode(bs) && |bs| > 1 && d == Digits(bs[1..])
    requires bs[1..] == Delta(d) <==> |bs| == 2 || bs[|bs| - 1] != 0
    requires |bs| == 2 || bs[|bs| - 1] != 0 ==> d >= bs[|bs| - 1]
    ensures bs == Delta(bs[0] % 128 + 128 * d) <==> bs[|bs| - 1] != 0
  {
    var rest, c := bs[1..], bs[0] % 128;
    assert bs[0] == c + 128 && bs == [bs[0]] + rest;
    if d >= 1 {
      DeltaCons(c, d);
      assert ([c + 128] + Delta(d))[1..] == Delta(d);
      if |bs| == 2 { assert Digits(rest) == rest[0] % 128 + 128 * Digits(rest[1..]); }
    }
  }

  /** When what was read is what the writer would have written. */
  lemma ReadIsCanonical(bs: seq<Byte>, pos: nat)
    requires pos <= |bs| && Decode(bs, pos, 0, 0).outcome.Value?
    ensures var r := Decode(bs, pos, 0, 0); var n := r.next - pos;
      && 1 <= n <= 5 && r.next <= |bs|
      && (bs[pos..r.next] == Delta(r.outcome.value) <==>
            (n == 1 || bs[r.next - 1] != 0) && (n == 5 ==> bs[r.next - 1] < 16))
  {
    DecodedIsCode(bs, pos, 0, 0);
    var r := Decode(bs, pos, 0, 0);
    var code := bs[pos..r.next];
    Weights();
    DecodeCode(bs, pos, r.next - pos, 0, 0);
    assert code[|code| - 1] == bs[r.next - 1];
    CodeIsCanonical(code);
  }

  lemma CodeIsCanonical(code: seq<Byte>)
    requires IsCode(code) && |code| <= 5
    ensures code == Delta(Digits(code) % WORD) <==>
      (|code| == 1 || code[|code| - 1] != 0) && (|code| == 5 ==> code[|code| - 1] < 16)
  {
    hide Delta, Digits;
    CanonicalCode(code);
    FitsWord(code);
    if code == Delta(Digits(code) % WORD) { DeltaIsCode(Digits(code) % WORD); }
  }

  /** Five bytes exceed 32 bits iff the last one is at least 16. */
  lemma FitsWord(bs: seq<Byte>)
    requires IsCode(bs) && |bs| <= 5
    ensures Digits(bs) < WORD <==> (|bs| == 5 ==> bs[4] < 16)
  {
    DigitsSplit(bs);
    Weights();
    if |bs| < 5 {
      DigitsBound(bs);
      WeightGrows(|bs|, 4);
    } else {
      DigitsBound(bs[..4]);
    }
  }

  lemma {:induction false} WeightGrows(i: nat, j: nat)
    requires i <= j
    ensures Weight(i) <= Weight(j)
  {
    if i < j { WeightGrows(i, j - 1); }
  }

  lemma {:induction false} DigitsBound(bs: seq<Byte>)
    ensures Digits(bs) < Weight(|bs|)
  {
    if |bs| > 0 { DigitsBound(bs[1..]); }
  }

  lemma {:induction false} DigitsSplit(bs: seq<Byte>)
    requires |bs| > 0
    ensures Digits(bs) == Digits(bs[..|bs| - 1]) + Weight(|bs| - 1) * (bs[|bs| - 1] % 128)
  {
    if |bs| == 1 {
    } else {
      DigitsSplit(bs[1..]);
      var init := bs[..|bs| - 1];
      assert init[1..] == bs[1..][..|bs| - 2];
      var w, c := Weight(|bs| - 2), bs[|bs| - 1] % 128;
      assert Weight(|bs| - 1) * c == 128 * (w * c);
    }
  }

  // ----- Writing -----------------------------------------------------------------------------------

  /** Bytes are put into a file or into a string buffer of fixed size. */
  datatype Target = File | Buffer(capacity: nat)

  datatype Put = Put(contents: seq<Byte>, ok: bool)

  /** Putting one byte.  The string version returns the byte as a signed character, so that 0xff is
      taken for the end-of-file value after it has been stored. */
  function PutOne(target: Target, contents: seq<Byte>, b: Byte): Put {
    match target
    case File => Put(contents + [b], true)
    case Buffer(capacity) =>
      if |contents| >= capacity then Put(contents, false) else Put(contents + [b], b != 0xff)
  }

  /** Putting bytes until one fails. */
  function PutAll(target: Target, contents: seq<Byte>, bs: seq<Byte>): Put
    decreases |bs|
  {
    if |bs| == 0 then Put(contents, true)
    else
      var p := PutOne(target, contents, bs[0]);
      if p.ok then PutAll(target, p.contents, bs[1..]) else p
  }

  lemma {:induction false} PutAllAppend(target: Target, contents: seq<Byte>, a: seq<Byte>, b: seq<Byte>)
    ensures PutAll(target, contents, a + b) ==
      var p := PutAll(target, contents, a); if p.ok then PutAll(target, p.contents, b) else p
    decreases |a|
  {
    if |a| == 0 {
      assert a + b == b;
    } else {
      assert (a + b)[1..] == a[1..] + b;
      var p := PutOne(target, contents, a[0]);
      if p.ok { PutAllAppend(target, p.contents, a[1..], b); }
    }
  }

  /** Writing succeeds iff the bytes fit and, for strings, none of them is 0xff; then all of them
      have been appended. */
  lemma {:induction false} PutAllExact(target: Target, contents: seq<Byte>, bs: seq<Byte>)
    ensures PutAll(target, contents, bs).ok <==>
      (target.Buffer? && bs != [] ==> |contents| + |bs| <= target.capacity && 0xff !in bs)
    ensures PutAll(target, contents, bs).ok ==> PutAll(target, contents, bs).contents == contents + bs
    decreases |bs|
  {
    if |bs| == 0 {
      assert contents + bs == contents;
    } else {
      var p := PutOne(target, contents, bs[0]);
      assert bs == [bs[0]] + bs[1..];
      if p.ok {
        PutAllExact(target, p.contents, bs[1..]);
        assert contents + bs == p.contents + bs[1..];
      }
    }
  }

  class Sink {
    const target: Target
    var contents: seq<Byte>

    constructor (target: Target)
      ensures this.target == target && contents == []
    {
      this.target, contents := target, [];
    }

    method PutByte(b: Byte) returns (ok: bool)
      modifies this
      ensures Put(contents, ok) == PutOne(target, old(contents), b)
      ensures ok ==> contents == old(contents) + [b]
      ensures !ok && contents != old(contents) <==> b == 0xff && target.Buffer? && |old(contents)| < target.capacity
    {
      match target {
        case File =>
          contents := contents + [b];
          ok := true;
        case Buffer(capacity) =>
          if |contents| >= capacity { return false; }
          contents := contents + [b];
          ok := b != 0xff;
      }
    }

    method WriteDelta(delta: nat) returns (ok: bool)
      modifies this
      ensures Put(contents, ok) == PutAll(target, old(contents), Delta(delta))
    {
      var tmp := delta;
      while tmp >= 128
        invariant PutAll(target, old(contents), Delta(delta)) == PutAll(target, contents, Delta(tmp))
        decreases tmp
      {
        assert Delta(tmp)[1..] == Delta(tmp / 128);
        ok := PutByte(tmp % 128 + 128);
        if !ok { return; }
        tmp := tmp / 128;
      }
      assert Delta(tmp) == [tmp];
      ok := PutByte(tmp);
    }

    /** The loop of `aiger_write_binary` over the gates. */
    method WriteAnds(m: Model) returns (ok: bool)
      requires Reencoded(m)
      modifies this
      ensures Put(contents, ok) == PutAll(target, old(contents), Section(m.ands))
    {
      hide PutAll, Delta, Section, GateCode;
      var lhs := 2 * FirstAnd(m);
      for i := 0 to |m.ands|
        invariant lhs == 2 * (FirstAnd(m) + i)
        invariant PutAll(target, old(contents), Section(m.ands)) == PutAll(target, contents, Section(m.ands[i..]))
      {
        var g := m.ands[i];
        assert g.lhs == 2 * (FirstAnd(m) + i);
        assert m.ands[i..][0] == g && m.ands[i..][1..] == m.ands[i + 1..];
        PutGate(target, contents, m.ands[i..]);
        ok := WriteDelta(lhs - g.rhs0);
        if !ok { return; }
        ok := WriteDelta(g.rhs0 - g.rhs1);
        if !ok { return; }
        lhs := lhs + 2;
      }
      assert m.ands[|m.ands|..] == [];
      PutNoGates(target, contents);
      ok := true;
    }
  }

  /** Putting a section: the two codes of its first gate, then the rest, stopping at a failure. */
  lemma PutGate(target: Target, contents: seq<Byte>, gs: seq<Gate>)
    requires |gs| > 0 && Descending(gs[0])
    ensures PutAll(target, contents, Section(gs)) ==
      var p := PutAll(target, contents, Delta(gs[0].lhs - gs[0].rhs0));
      if !p.ok then p else
      var q := PutAll(target, p.contents, Delta(gs[0].rhs0 - gs[0].rhs1));
      if !q.ok then q else PutAll(target, q.contents, Section(gs[1..]))
  {
    hide PutAll, Delta;
    PutAllAppend(target, contents, GateCode(gs[0]), Section(gs[1..]));
    PutAllAppend(target, contents, Delta(gs[0].lhs - gs[0].rhs0), Delta(gs[0].rhs0 - gs[0].rhs1));
  }

  lemma PutNoGates(target: Target, contents: seq<Byte>)
    ensures PutAll(target, contents, Section([])) == Put(contents, true)
  {}

  // ----- The AND section ------------------------------------------------------------------------------

  /** A gate above its ordered operands. */
  predicate Descending(g: Gate) {
    g.lhs >= g.rhs0 >= g.rhs1
  }

  function GateCode(g: Gate): seq<Byte> {
    if Descending(g) then Delta(g.lhs - g.rhs0) + Delta(g.rhs0 - g.rhs1) else []
  }

  /** A gate is written as the codes of two differences: left side minus greater operand, then greater
      minus smaller operand. */
  lemma GateFormat(g: Gate)
    requires Descending(g)
    ensures exists a, b ::
      && GateCode(g) == a + b
      && IsCode(a) && Digits(a) == g.lhs - g.rhs0
      && IsCode(b) && Digits(b) == g.rhs0 - g.rhs1
  {
    DeltaIsCode(g.lhs - g.rhs0);
    DeltaIsCode(g.rhs0 - g.rhs1);
    var a, b := Delta(g.lhs - g.rhs0), Delta(g.rhs0 - g.rhs1);
    assert GateCode(g) == a + b;
  }

  function Section(gs: seq<Gate>): seq<Byte> {
    if |gs| == 0 then [] else GateCode(gs[0]) + Section(gs[1..])
  }

  /** What reading `n` gates yields: the gates, the failure if any, and where reading stopped. */
  datatype GatesRead = GatesRead(ands: seq<Gate>, failure: Option, next: nat)
  datatype Option = None | Some(value: Failure)

  function ReadOne(bs: seq<Byte>, pos: nat, bound: nat): Decoded {
    var d := Decode(bs, pos, 0, 0);
    if d.outcome.Value? && d.outcome.value > bound then Decoded(Fail(InvalidDelta), d.next) else d
  }

  datatype GateRead = GateRead(gate: Gate, failure: Option, next: nat)

  function ReadGate(bs: seq<Byte>, pos: nat, lhs: nat): GateRead {
    var d0 := ReadOne(bs, pos, lhs);
    if d0.outcome.Fail? then GateRead(Gate(lhs, 0, 0), Some(d0.outcome.failure), d0.next) else
    var rhs0: nat := lhs - d0.outcome.value;
    var d1 := ReadOne(bs, d0.next, rhs0);
    if d1.outcome.Fail? then GateRead(Gate(lhs, rhs0, 0), Some(d1.outcome.failure), d1.next) else
    GateRead(Gate(lhs, rhs0, rhs0 - d1.outcome.value), None, d1.next)
  }

  /** A gate is refused for the first number that cannot be read or exceeds the literal it is subtracted
      from; otherwise the operands are the left side less the first number, and that less the second. */
  lemma GateMeans(bs: seq<Byte>, pos: nat, lhs: nat)
    ensures var d0 := Decode(bs, pos, 0, 0); var d1 := Decode(bs, d0.next, 0, 0); var r := ReadGate(bs, pos, lhs);
      match d0.outcome
      case Fail(e) => r.failure == Some(e)
      case Value(n0) =>
        if n0 > lhs then r.failure == Some(InvalidDelta) else
        match d1.outcome
        case Fail(e) => r.failure == Some(e)
        case Value(n1) =>
          if n0 + n1 > lhs then r.failure == Some(InvalidDelta)
          else r == GateRead(Gate(lhs, lhs - n0, lhs - n0 - n1), None, d1.next)
  {
    hide Decode;
  }

  function ReadGates(bs: seq<Byte>, pos: nat, lhs: nat, n: nat): GatesRead
    decreases n
  {
    if n == 0 then GatesRead([], None, pos)
    else
      var g := ReadGate(bs, pos, lhs);
      if g.failure.Some? then GatesRead([], g.failure, g.next)
      else After([g.gate], ReadGates(bs, g.next, lhs + 2, n - 1))
  }

  class Reader {
    const bytes: seq<Byte>
    var pos: nat

    constructor (bytes: seq<Byte>, pos: nat)
      ensures this.bytes == bytes && this.pos == pos
    {
      this.bytes, this.pos := bytes, pos;
    }

    method ReadDelta() returns (r: Outcome)
      modifies this
      ensures Decoded(r, pos) == Decode(bytes, old(pos), 0, 0)
    {
      if pos >= |bytes| { return Fail(UnexpectedEof); }
      var i: nat, res: nat := 0, 0;
      var ch := bytes[pos];
      while ch >= 128
        invariant pos < |bytes| && ch == bytes[pos] && i <= 5
        invariant Decode(bytes, pos, i, res) == Decode(bytes, old(pos), 0, 0)
        decreases |bytes| - pos
      {
        if i == 5 { return Fail(InvalidCode); }
        res := res + Shifted(ch % 128, i);
        i := i + 1;
        pos := pos + 1;
        if pos >= |bytes| { return Fail(UnexpectedEof); }
        ch := bytes[pos];
      }
      if i == 5 {
        if ch >= 8 { return Fail(InvalidCode); }
        return Fail(ShiftTooWide);
      }
      res := res + Shifted(ch, i);
      pos := pos + 1;
      r := Value(res);
    }

    /** The loop of `aiger_read_binary`. */
    method ReadAnds(first: nat, n: nat) returns (ands: seq<Gate>, failure: Option)
      modifies this
      ensures GatesRead(ands, failure, pos) == ReadGates(bytes, old(pos), first, n)
    {
      ands := [];
      var lhs := first;
      for i := 0 to n
        invariant lhs == first + 2 * i
        invariant ReadGates(bytes, old(pos), first, n) == After(ands, ReadGates(bytes, pos, lhs, n - i))
      {
        ghost var rest := ReadGates(bytes, pos, lhs, n - i);
        var g := ReadAnd(lhs);
        if g.failure.Some? { return ands, g.failure; }
        ghost var later := ReadGates(bytes, pos, lhs + 2, n - i - 1);
        assert rest == After([g.gate], later);
        assert ands + ([g.gate] + later.ands) == (ands + [g.gate]) + later.ands;
        ands := ands + [g.gate];
        lhs := lhs + 2;
      }
      failure := None;
    }

    method ReadAnd(lhs: nat) returns (r: GateRead)
      modifies this
      ensures r == ReadGate(bytes, old(pos), lhs) && pos == r.next
      ensures r.failure.None? ==> r.gate.lhs == lhs && Descending(r.gate)
      ensures forall g: Gate :: g.lhs == lhs < WORD && Descending(g) && StandsAt(bytes, old(pos), GateCode(g)) ==>
        r == GateRead(g, None, old(pos) + |GateCode(g)|)
    {
      forall g: Gate | g.lhs == lhs < WORD && Descending(g) && StandsAt(bytes, pos, GateCode(g))
        ensures ReadGate(bytes, pos, lhs) == GateRead(g, None, pos + |GateCode(g)|)
      {
        GateRoundTrip(bytes, pos, g);
      }
      hide Decode, Delta, GateCode, StandsAt;
      var delta := ReadDelta();
      if delta.Fail? { return GateRead(Gate(lhs, 0, 0), Some(delta.failure), pos); }
      if delta.value > lhs { return GateRead(Gate(lhs, 0, 0), Some(InvalidDelta), pos); }
      var rhs0 := lhs - delta.value;
      delta := ReadDelta();
      if delta.Fail? { return GateRead(Gate(lhs, rhs0, 0), Some(delta.failure), pos); }
      if delta.value > rhs0 { return GateRead(Gate(lhs, rhs0, 0), Some(InvalidDelta), pos); }
      r := GateRead(Gate(lhs, rhs0, rhs0 - delta.value), None, pos);
    }
  }

  function After(ands: seq<Gate>, r: GatesRead): GatesRead {
    r.(ands := ands + r.ands)
  }

  /** The gates are numbered consecutively from `lhs`, each above its ordered operands. */
  ghost predicate Consecutive(gs: seq<Gate>, lhs: nat) {
    forall i :: 0 <= i < |gs| ==> gs[i].lhs == lhs + 2 * i && Descending(gs[i])
  }

  /** The bytes at `pos` are those of the section. */
  ghost predicate StandsAt(bs: seq<Byte>, pos: nat, part: seq<Byte>) {
    pos + |part| <= |bs| && bs[pos..pos + |part|] == part
  }

  lemma StandsSplit(bs: seq<Byte>, pos: nat, a: seq<Byte>, b: seq<Byte>)
    requires StandsAt(bs, pos, a + b)
    ensures StandsAt(bs, pos, a) && StandsAt(bs, pos + |a|, b)
  {
    var part := bs[pos..pos + |a + b|];
    assert part[..|a|] == a && part[|a|..] == b;
    assert bs[pos..pos + |a|] == part[..|a|];
    assert bs[pos + |a|..pos + |a| + |b|] == part[|a|..];
  }

  lemma GateRoundTrip(bs: seq<Byte>, pos: nat, g: Gate)
    requires Descending(g) && g.lhs < WORD && StandsAt(bs, pos, GateCode(g))
    ensures ReadGate(bs, pos, g.lhs) == GateRead(g, None, pos + |GateCode(g)|)
  {
    hide Delta, Decode;
    StandsSplit(bs, pos, Delta(g.lhs - g.rhs0), Delta(g.rhs0 - g.rhs1));
    RoundTrip(bs, pos, g.lhs - g.rhs0);
    RoundTrip(bs, pos + |Delta(g.lhs - g.rhs0)|, g.rhs0 - g.rhs1);
  }

  lemma SectionSplit(bs: seq<Byte>, pos: nat, gs: seq<Gate>)
    requires |gs| > 0 && StandsAt(bs, pos, Section(gs))
    ensures StandsAt(bs, pos, GateCode(gs[0])) && StandsAt(bs, pos + |GateCode(gs[0])|, Section(gs[1..]))
    ensures |Section(gs)| == |GateCode(gs[0])| + |Section(gs[1..])|
  {
    StandsSplit(bs, pos, GateCode(gs[0]), Section(gs[1..]));
  }

  /** Whatever surrounds the section, reading it yields its gates and stops right behind it. */
  lemma {:induction false} SectionRoundTrip(bs: seq<Byte>, pos: nat, gs: seq<Gate>, lhs: nat)
    requires Consecutive(gs, lhs) && lhs + 2 * |gs| <= WORD && StandsAt(bs, pos, Section(gs))
    ensures ReadGates(bs, pos, lhs, |gs|) == GatesRead(gs, None, pos + |Section(gs)|)
    decreases |gs|
  {
    hide Delta, Decode, GateCode, ReadGate;
    if |gs| > 0 {
      SectionTail(gs, lhs);
      SectionSplit(bs, pos, gs);
      var next := pos + |GateCode(gs[0])|;
      SectionRoundTrip(bs, next, gs[1..], lhs + 2);
      GateRoundTrip(bs, pos, gs[0]);
      ReadGatesFirst(bs, pos, lhs, |gs|, gs[0], next);
      PutInFront(ReadGates(bs, next, lhs + 2, |gs| - 1), gs, pos + |Section(gs)|);
    }
  }

  lemma ReadGatesFirst(bs: seq<Byte>, pos: nat, lhs: nat, n: nat, g: Gate, next: nat)
    requires n > 0 && ReadGate(bs, pos, lhs) == GateRead(g, None, next)
    ensures ReadGates(bs, pos, lhs, n) == After([g], ReadGates(bs, next, lhs + 2, n - 1))
  {}

  lemma PutInFront(rest: GatesRead, gs: seq<Gate>, next: nat)
    requires |gs| > 0 && rest == GatesRead(gs[1..], None, next)
    ensures After([gs[0]], rest) == GatesRead(gs, None, next)
  {
    assert [gs[0]] + gs[1..] == gs;
  }

  lemma SectionTail(gs: seq<Gate>, lhs: nat)
    requires Consecutive(gs, lhs) && |gs| > 0
    ensures Consecutive(gs[1..], lhs + 2) && gs[0].lhs == lhs && Descending(gs[0])
  {
    assert forall i :: 0 <= i < |gs[1..]| ==> gs[1..][i] == gs[i + 1];
  }

  /** Whatever bytes are read without failure, the gates are consecutive and ordered. */
  lemma {:induction false} ReadIsConsecutive(bs: seq<Byte>, pos: nat, lhs: nat, n: nat)
    ensures Consecutive(ReadGates(bs, pos, lhs, n).ands, lhs)
    ensures ReadGates(bs, pos, lhs, n).failure.None? <==> |ReadGates(bs, pos, lhs, n).ands| == n
    decreases n
  {
    if n > 0 {
      var g := ReadGate(bs, pos, lhs);
      if g.failure.None? { ReadIsConsecutive(bs, g.next, lhs + 2, n - 1); }
    }
  }

  /** Writing a re-encoded model to a file and reading the section back. */
  lemma WriteThenRead(m: Model, before: seq<Byte>, behind: seq<Byte>)
    requires Reencoded(m) && 2 * NumVars(m) <= WORD
    ensures var p := PutAll(File, before, Section(m.ands));
      p.ok && ReadGates(p.contents + behind, |before|, 2 * FirstAnd(m), |m.ands|) == GatesRead(m.ands, None, |p.contents|)
  {
    var section := Section(m.ands);
    PutAllExact(File, before, section);
    var bs := before + section + behind;
    assert bs[|before|..|before| + |section|] == section;
    SectionRoundTrip(bs, |before|, m.ands, 2 * FirstAnd(m));
  }

  // ----- Findings --------------------------------------------------------------------------------------

  /** A string buffer with room to spare rejects 255: its first byte is 0xff. */
  lemma StringRejects255()
    ensures !PutAll(Buffer(100), [], Delta(255)).ok && PutAll(File, [], Delta(255)).ok
  {
    assert Delta(255) == [0xff, 1];
    PutAllExact(Buffer(100), [], Delta(255));
    PutAllExact(File, [], Delta(255));
  }

  /** Five bytes with a last byte above 15 are accepted as a truncated number. */
  lemma TruncatedCodeAccepted()
    ensures Decode([0x80, 0x80, 0x80, 0x80, 0x7f], 0, 0, 0) == Decoded(Value(0xf000_0000), 5)
  {
    var bs: seq<Byte> := [0x80, 0x80, 0x80, 0x80, 0x7f];
    Weights();
    TopBits(0x7f);
    assert Shifted(0x7f, 4) == 0xf000_0000;
    assert Decode(bs, 4, 4, 0) == Decoded(Value(0xf000_0000), 5);
    assert Decode(bs, 3, 3, 0) == Decode(bs, 4, 4, 0);
    assert Decode(bs, 2, 2, 0) == Decode(bs, 3, 3, 0);
    assert Decode(bs, 1, 1, 0) == Decode(bs, 2, 2, 0);
  }
}
