/**
 Runtime values and the operators both engines share (src/vm/value_ops.c).

 Integers carry their C width: INT is 32 bits, LONG and DATE are 64 bits. A FLOAT is its
 64-bit pattern; what IEEE arithmetic does with patterns is a parameter (`Fpu`), so every
 result below holds whatever the floating-point unit computes.
 */
module Values {

  const INT_MIN: int := -0x8000_0000
  const INT_MAX: int := 0x7fff_ffff
  const LONG_MIN: int := -0x8000_0000_0000_0000
  const LONG_MAX: int := 0x7fff_ffff_ffff_ffff
  const SECONDS_PER_DAY: int := 86400

  /** INT64_MAX / 2 as a double, which rounds it up. Doubles of this size are whole, so it makes no
      difference that the source compares before it truncates. */
  const FLOAT_SECONDS_LIMIT: int := 0x4000_0000_0000_0000

  type int32 = x: int | INT_MIN <= x <= INT_MAX
  type int64 = x: int | LONG_MIN <= x <= LONG_MAX
  type bits64 = x: int | 0 <= x < 0x1_0000_0000_0000_0000

  datatype Option<+T> = None | Some(value: T)

  datatype Type = TInt | TFloat | TBool | TString | TDate | TLong | TArray | TVoid

  datatype Value =
    | IntV(i: int32)
    | FloatV(f: bits64)
    | BoolV(b: bool)
    | StrV(s: string)
    | DateV(d: int64)
    | LongV(l: int64)
    | ArrV(items: seq<Value>)
    | Void(word: int32)

  /** A VOID has a data word like every value; nothing reads it but a test for truth. */
  const VoidV: Value := Void(0)

  datatype BinOp = Eq | Ne | Lt | Gt | Le | Ge | And | Or | Add | Sub | Mul | Div

  datatype UnOp = Not | Neg

  datatype Status = Ok | VoidOperand | TypeError | DivZero | Overflow

  /** A status together with what the operator leaves in its out parameter. */
  datatype OpResult = OpResult(st: Status, out: Value)

  /** Double-precision operations on bit patterns; `daySeconds` is the checked conversion of a
      FLOAT number of days to whole seconds (None when it is not finite). */
  datatype Fpu = Fpu(
    ofInt: int -> bits64,
    arith: (BinOp, bits64, bits64) -> bits64,
    cmp: (BinOp, bits64, bits64) -> bool,
    neg: bits64 -> bits64,
    isZero: bits64 -> bool,
    daySeconds: bits64 -> Option<int>)

  function TypeOf(v: Value): Type {
    match v
    case IntV(_) => TInt
    case FloatV(_) => TFloat
    case BoolV(_) => TBool
    case StrV(_) => TString
    case DateV(_) => TDate
    case LongV(_) => TLong
    case ArrV(_) => TArray
    case Void(_) => TVoid
  }

  predicate IsRelational(op: BinOp) {
    op.Eq? || op.Ne? || op.Lt? || op.Gt? || op.Le? || op.Ge?
  }

  predicate IsArithmetic(op: BinOp) {
    op.Add? || op.Sub? || op.Mul? || op.Div?
  }

  predicate IsLogical(op: BinOp) {
    op.And? || op.Or?
  }

  predicate IsFatal(st: Status) {
    st != Ok && st != VoidOperand
  }

  /** What C reads through `data.bool_val`: the low 32 bits of the union. A string or array
      holds a heap pointer there. */
  predicate Truth(v: Value) {
    match v
    case IntV(i) => i != 0
    case FloatV(f) => f % 0x1_0000_0000 != 0
    case BoolV(b) => b
    case StrV(_) => true
    case DateV(d) => d % 0x1_0000_0000 != 0
    case LongV(l) => l % 0x1_0000_0000 != 0
    case ArrV(_) => true
    case Void(word) => word != 0
  }

  function EvalCmp(op: BinOp, cmp: int): bool {
    match op
    case Eq => cmp == 0
    case Ne => cmp != 0
    case Lt => cmp < 0
    case Gt => cmp > 0
    case Le => cmp <= 0
    case Ge => cmp >= 0
    case _ => false
  }

  function ThreeWay(a: int, b: int): int {
    if a < b then -1 else if a > b then 1 else 0
  }

  // ----- checked integer arithmetic -----

  predicate InInt(x: int) { INT_MIN <= x <= INT_MAX }

  predicate InLong(x: int) { LONG_MIN <= x <= LONG_MAX }

  /** Integer division as section 6.5.5 of ISO/IEC 9899:2011 defines it. */
  function TruncDiv(a: int, b: int): (q: int)
    requires b != 0
  {
    if a >= 0 then a / b else -((-a) / b)
  }

  /** r is the remainder C leaves when it divides a by b. */
  ghost predicate IsRemainder(r: int, a: int, b: int) {
    -Abs(b) < r < Abs(b) && (a >= 0 ==> r >= 0) && (a <= 0 ==> r <= 0)
  }

  /** The quotient is the one integer whose remainder is smaller than the divisor and has
      the sign of the dividend: truncation toward zero. */
  lemma {:induction false} TruncDivCharacterised(a: int, b: int, q: int)
    requires b != 0
    ensures q == TruncDiv(a, b) <==> IsRemainder(a - q * b, a, b)
  {
    TruncDivRemainder(a, b);
    if q != TruncDiv(a, b) && IsRemainder(a - q * b, a, b) {
      OneQuotient(a, b, q, TruncDiv(a, b));
    }
  }

  lemma TruncDivRemainder(a: int, b: int)
    requires b != 0
    ensures IsRemainder(a - TruncDiv(a, b) * b, a, b)
  {
    var m := Abs(a);
    assert m == b * (m / b) + m % b;
    assert a >= 0 ==> TruncDiv(a, b) * b == b * (m / b);
    assert a < 0 ==> TruncDiv(a, b) * b == -(b * (m / b));
  }

  lemma OneQuotient(a: int, b: int, q: int, t: int)
    requires b != 0 && IsRemainder(a - q * b, a, b) && IsRemainder(a - t * b, a, b)
    ensures q == t
  {
    assert (a - t * b) - (a - q * b) == (q - t) * b;
    if q != t { MulAtLeast(q - t, b); }
  }

  function Abs(x: int): int { if x < 0 then -x else x }

  lemma MulAtLeast(k: int, b: int)
    requires k != 0
    ensures Abs(k * b) >= Abs(b)
  {
    var m := Abs(k) - 1;
    var c := Abs(b);
    assert m * c >= 0;
    assert Abs(k) * c == m * c + c;
    AbsOfProduct(k, b);
  }

  lemma AbsOfProduct(k: int, b: int)
    ensures Abs(k * b) == Abs(k) * Abs(b)
  {
    if k >= 0 && b >= 0 { ProductSign(k, b); }
    else if k >= 0 { ProductSign(k, -b); assert k * -b == -(k * b); }
    else if b >= 0 { ProductSign(-k, b); assert (-k) * b == -(k * b); }
    else { ProductSign(-k, -b); assert (-k) * -b == k * b; }
  }

  lemma ProductSign(x: int, y: int)
    requires x >= 0 && y >= 0
    ensures x * y >= 0
  {
  }

  // The portable overflow tests (the non-GNU branch of ck_add_i64, ck_sub_i64, ck_mul_i64).

  predicate PortableAddOk(a: int64, b: int64) {
    !((b > 0 && a > LONG_MAX - b) || (b < 0 && a < LONG_MIN - b))
  }

  predicate PortableSubOk(a: int64, b: int64) {
    !((b < 0 && a > LONG_MAX + b) || (b > 0 && a < LONG_MIN + b))
  }

  predicate PortableMulOk(a: int64, b: int64) {
    if a == 0 || b == 0 then true
    else if (a == -1 && b == LONG_MIN) || (b == -1 && a == LONG_MIN) then false
    else if a > 0 then
      !(if b > 0 then a > TruncDiv(LONG_MAX, b) else b < TruncDiv(LONG_MIN, a))
    else
      !(if b > 0 then a < TruncDiv(LONG_MIN, b) else b < TruncDiv(LONG_MAX, a))
  }

  lemma PortableAddExact(a: int64, b: int64)
    ensures PortableAddOk(a, b) <==> InLong(a + b)
  {
  }

  lemma PortableSubExact(a: int64, b: int64)
    ensures PortableSubOk(a, b) <==> InLong(a - b)
  {
  }

  /** Multiplying stays within M exactly when one factor stays within the truncated quotient. */
  lemma MulWithin(x: int, y: int, m: int)
    requires y > 0 && m >= 0 && x >= 0
    ensures x * y <= m <==> x <= m / y
  {
    var q := m / y;
    assert m == y * q + m % y;
    if x <= q {
      assert x * y <= q * y;
    } else {
      assert x * y >= (q + 1) * y;
      assert (q + 1) * y == q * y + y;
    }
  }

  lemma {:induction false} PortableMulExact(a: int, b: int)
    requires InLong(a) && InLong(b)
    ensures PortableMulOk(a, b) <==> InLong(a * b)
  {
    if a == 0 || b == 0 {
      assert a * b == 0;
    } else if a == -1 || b == -1 {
      MulMinusOneExact(a, b);
    } else if a > 0 && b > 0 {
      MulWithin(a, b, LONG_MAX);
      ProductSign(a, b);
    } else if a > 0 {
      OppositeSigns(a, -b);
      assert a * b == -(a * -b);
    } else if b > 0 {
      OppositeSigns(b, -a);
      assert a * b == -(b * -a);
    } else {
      MulWithin(-b, -a, LONG_MAX);
      assert (-b) * (-a) == a * b;
      DivNegDivisor(LONG_MAX, a);
      ProductSign(-b, -a);
    }
  }

  lemma OppositeSigns(p: int, n: int)
    requires p > 0 && n > 0
    ensures InLong(-(p * n)) <==> !(-n < TruncDiv(LONG_MIN, p))
  {
    MulWithin(n, p, -LONG_MIN);
    assert TruncDiv(LONG_MIN, p) == -((-LONG_MIN) / p);
    ProductSign(p, n);
  }

  lemma MulMinusOneExact(a: int, b: int)
    requires InLong(a) && InLong(b) && a != 0 && b != 0 && (a == -1 || b == -1)
    ensures PortableMulOk(a, b) <==> InLong(a * b)
  {
    if a == -1 {
      assert a * b == -b;
      if b > 0 { OppositeSigns(b, 1); } else { DivNegDivisor(LONG_MAX, a); }
    } else {
      assert a * b == -a;
      if a > 0 { OppositeSigns(a, 1); } else { DivNegDivisor(LONG_MAX, a); MulWithin(1, -a, LONG_MAX); }
    }
  }

  lemma DivNegDivisor(m: int, a: int)
    requires m >= 0 && a < 0
    ensures m / a == -(m / -a)
  {
    var q := m / -a;
    assert m == (-a) * q + m % -a;
    assert m == a * (-q) + m % -a;
    var q' := m / a;
    assert m == a * q' + m % a;
    assert a * (q' + q) == m % -a - m % a;
    if q' + q != 0 { MulAtLeast(q' + q, a); }
  }

  // ----- unary and binary operators -----

  predicate IsNumeric(v: Value) { v.IntV? || v.LongV? || v.FloatV? }

  predicate IsZeroDivisor(fpu: Fpu, b: Value) {
    match b
    case IntV(i) => i == 0
    case LongV(l) => l == 0
    case FloatV(f) => fpu.isZero(f)
    case _ => false
  }

  function Fail(st: Status): OpResult { OpResult(st, VoidV) }

  function Integer(v: Value): int
    requires v.IntV? || v.LongV?
  {
    if v.IntV? then v.i else v.l
  }

  function AsFloat(fpu: Fpu, v: Value): bits64
    requires IsNumeric(v)
  {
    match v case FloatV(f) => f case IntV(i) => fpu.ofInt(i) case LongV(l) => fpu.ofInt(l)
  }

  /** eval_date_offset: the days become seconds, and both steps are checked. */
  function DateOffset(fpu: Fpu, base: int64, delta: Value, subtract: bool): OpResult {
    match delta
    case IntV(n) => ShiftByDays(base, n, subtract)
    case LongV(n) => ShiftByDays(base, n, subtract)
    case FloatV(f) =>
      (match fpu.daySeconds(f)
       case None => Fail(Overflow)
       case Some(sec) =>
         if sec < -FLOAT_SECONDS_LIMIT || sec > FLOAT_SECONDS_LIMIT then Fail(Overflow)
         else ShiftDate(base, sec, subtract))
    case _ => Fail(TypeError)
  }

  function ShiftByDays(base: int64, days: int64, subtract: bool): OpResult {
    if !PortableMulOk(days, SECONDS_PER_DAY) then Fail(Overflow)
    else
      PortableMulExact(days, SECONDS_PER_DAY);
      ShiftDate(base, days * SECONDS_PER_DAY, subtract)
  }

  function ShiftDate(base: int64, seconds: int64, subtract: bool): OpResult {
    if subtract then
      if PortableSubOk(base, seconds) then OpResult(Ok, DateV(base - seconds)) else Fail(Overflow)
    else
      if PortableAddOk(base, seconds) then OpResult(Ok, DateV(base + seconds)) else Fail(Overflow)
  }

  /** Two operands of which one is a LONG: every operation is guarded before it is done. */
  function WideArith(op: BinOp, a: int64, b: int64): OpResult
    requires IsArithmetic(op)
  {
    if op.Add? then
      if PortableAddOk(a, b) then OpResult(Ok, LongV(a + b)) else Fail(Overflow)
    else if op.Sub? then
      if PortableSubOk(a, b) then OpResult(Ok, LongV(a - b)) else Fail(Overflow)
    else if op.Mul? then
      if PortableMulOk(a, b) then PortableMulExact(a, b); OpResult(Ok, LongV(a * b)) else Fail(Overflow)
    else if b == 0 then Fail(DivZero)
    else if a == LONG_MIN && b == -1 then Fail(Overflow)
    else QuotientFits(a, b); OpResult(Ok, LongV(TruncDiv(a, b)))
  }

  /** Two INTs: the operation is done in 64 bits, which always hold the result, and the result is
      tested afterwards. */
  function NarrowArith(op: BinOp, a: int32, b: int32): OpResult
    requires IsArithmetic(op)
  {
    if op.Div? && b == 0 then Fail(DivZero)
    else
      IntermediateFits(a, b);
      var r: int64 :=
        if op.Add? then a + b else if op.Sub? then a - b else if op.Mul? then a * b else TruncDiv(a, b);
      if r < INT_MIN || r > INT_MAX then Fail(Overflow) else OpResult(Ok, IntV(r))
  }

  lemma QuotientShrinks(m: nat, c: nat)
    requires c > 0
    ensures 0 <= m / c <= m && (c > 1 && m > 0 ==> m / c < m)
  {
    var q := m / c;
    assert m == c * q + m % c;
    assert c * q == q * c;
    if q > m { ProductGrows(q, c); }
    if c > 1 && m > 0 {
      ProductSign(q, c - 2);
      assert q * c == q * (c - 2) + 2 * q;
    }
  }

  /** A quotient is no larger than its dividend; only LONG_MIN / -1 leaves the range. */
  lemma QuotientFits(a: int, b: int)
    requires b != 0
    ensures Abs(TruncDiv(a, b)) <= Abs(a)
    ensures InLong(a) && !(a == LONG_MIN && b == -1) ==> InLong(TruncDiv(a, b))
  {
    var m := Abs(a);
    QuotientShrinks(m, Abs(b));
    if b < 0 { DivNegDivisor(m, b); }
    assert m / b == if b > 0 then m / Abs(b) else -(m / Abs(b));
    hide Abs;
    assert TruncDiv(a, b) == if a >= 0 then m / b else -(m / b);
  }

  lemma ProductGrows(k: int, c: int)
    requires k >= 0 && c >= 1
    ensures k * c >= k
  {
    ProductSign(k, c - 1);
    assert k * c == k * (c - 1) + k;
  }

  lemma IntermediateFits(a: int32, b: int32)
    ensures InLong(a + b) && InLong(a - b) && InLong((a as int) * b) && (b != 0 ==> InLong(TruncDiv(a, b)))
  {
    var x, y := Abs(a), Abs(b);
    AbsOfProduct(a, b);
    ProductSign(x, 0x8000_0000 - y);
    ProductSign(0x8000_0000 - x, 0x8000_0000);
    assert x * y == x * 0x8000_0000 - x * (0x8000_0000 - y);
    if b != 0 { QuotientFits(a, b); }
  }

  /** cdsl_value_binop: the branches in the source's order. */
  function ApplyBin(fpu: Fpu, op: BinOp, a: Value, b: Value): OpResult {
    if op.Div? && IsZeroDivisor(fpu, b) then Fail(DivZero)
    else if a.Void? || b.Void? then
      OpResult(VoidOperand, if IsRelational(op) then BoolV(false) else VoidV)
    else if a.StrV? || b.StrV? then
      if !a.StrV? || !b.StrV? || !(op.Eq? || op.Ne?) then Fail(TypeError)
      else OpResult(Ok, BoolV(EvalCmp(op, if a.s == b.s then 0 else 1)))
    else if a.DateV? || b.DateV? then ApplyDate(fpu, op, a, b)
    else if a.BoolV? || b.BoolV? then
      if !a.BoolV? || !b.BoolV? || !IsRelational(op) then Fail(TypeError)
      else OpResult(Ok, BoolV(EvalCmp(op, (if a.b then 1 else 0) - (if b.b then 1 else 0))))
    else if !IsNumeric(a) || !IsNumeric(b) then Fail(TypeError)
    else if a.FloatV? || b.FloatV? then
      var (x, y) := (AsFloat(fpu, a), AsFloat(fpu, b));
      if IsArithmetic(op) then
        if op.Div? && fpu.isZero(y) then Fail(DivZero) else OpResult(Ok, FloatV(fpu.arith(op, x, y)))
      else if IsRelational(op) then OpResult(Ok, BoolV(fpu.cmp(op, x, y)))
      else Fail(TypeError)
    else
      var (x, y) := (Integer(a), Integer(b));
      if IsArithmetic(op) then
        if a.LongV? || b.LongV? then WideArith(op, x, y) else NarrowArith(op, x, y)
      else if IsRelational(op) then OpResult(Ok, BoolV(EvalCmp(op, ThreeWay(x, y))))
      else Fail(TypeError)
  }

  function ApplyDate(fpu: Fpu, op: BinOp, a: Value, b: Value): OpResult
    requires a.DateV? || b.DateV?
  {
    if a.DateV? && b.DateV? then
      if op.Sub? then
        var seconds := a.d - b.d;
        if seconds < INT_MIN * SECONDS_PER_DAY || seconds > INT_MAX * SECONDS_PER_DAY then Fail(Overflow)
        else DaysBetweenInRange(seconds); OpResult(Ok, IntV(TruncDiv(seconds, SECONDS_PER_DAY)))
      else if IsRelational(op) then OpResult(Ok, BoolV(EvalCmp(op, ThreeWay(a.d, b.d))))
      else Fail(TypeError)
    else if a.DateV? && (op.Add? || op.Sub?) then DateOffset(fpu, a.d, b, op.Sub?)
    else if b.DateV? && op.Add? then DateOffset(fpu, b.d, a, false)
    else Fail(TypeError)
  }

  lemma DaysBetweenInRange(seconds: int)
    requires INT_MIN * SECONDS_PER_DAY <= seconds <= INT_MAX * SECONDS_PER_DAY
    ensures InInt(TruncDiv(seconds, SECONDS_PER_DAY))
  {
  }

  /** cdsl_value_unop. */
  function ApplyUn(op: UnOp, fpu: Fpu, v: Value): OpResult {
    if v.Void? then OpResult(VoidOperand, if op.Not? then BoolV(true) else VoidV)
    else match op
      case Not =>
        (match v
         case BoolV(b) => OpResult(Ok, BoolV(!b))
         case IntV(i) => OpResult(Ok, BoolV(i == 0))
         case _ => Fail(TypeError))
      case Neg =>
        (match v
         case IntV(i) => if i == INT_MIN then Fail(Overflow) else OpResult(Ok, IntV(-i))
         case LongV(l) => if l == LONG_MIN then Fail(Overflow) else OpResult(Ok, LongV(-l))
         case FloatV(f) => OpResult(Ok, FloatV(fpu.neg(f)))
         case _ => Fail(TypeError))
  }

  // ----- what the operators mean on integers -----

  /** q is what the operation means mathematically: the quotient is the integer that leaves a
      remainder smaller than the divisor and of the dividend's sign. */
  ghost predicate IsExact(op: BinOp, x: int, y: int, q: int)
    requires IsArithmetic(op)
  {
    match op
    case Add => q == x + y
    case Sub => q == x - y
    case Mul => q == x * y
    case _ => y != 0 && IsRemainder(x - q * y, x, y)
  }

  ghost predicate Fits(q: int, wide: bool) {
    if wide then -0x8000_0000_0000_0000 <= q < 0x8000_0000_0000_0000 else -0x8000_0000 <= q < 0x8000_0000
  }

  lemma WideIsExact(op: BinOp, a: int64, b: int64, q: int)
    requires IsArithmetic(op) && IsExact(op, a, b, q)
    ensures WideArith(op, a, b) == if InLong(q) then OpResult(Ok, LongV(q)) else Fail(Overflow)
  {
    if op.Add? {
      PortableAddExact(a, b);
    } else if op.Sub? {
      PortableSubExact(a, b);
    } else if op.Mul? {
      PortableMulExact(a, b);
    } else {
      TruncDivCharacterised(a, b, q);
      QuotientFits(a, b);
    }
  }

  lemma NarrowIsExact(op: BinOp, a: int32, b: int32, q: int)
    requires IsArithmetic(op) && IsExact(op, a, b, q)
    ensures NarrowArith(op, a, b) == if InInt(q) then OpResult(Ok, IntV(q)) else Fail(Overflow)
  {
    IntermediateFits(a, b);
    if op.Div? { TruncDivCharacterised(a, b, q); }
  }

  lemma ApplyIntegers(fpu: Fpu, op: BinOp, a: Value, b: Value)
    requires IsArithmetic(op)
    requires (a.IntV? || a.LongV?) && (b.IntV? || b.LongV?)
    ensures ApplyBin(fpu, op, a, b) ==
            if op.Div? && Integer(b) == 0 then Fail(DivZero)
            else if a.LongV? || b.LongV? then WideArith(op, Integer(a), Integer(b))
            else NarrowArith(op, Integer(a), Integer(b))
  {
    hide WideArith, NarrowArith, ApplyDate, EvalCmp;
  }

  /** On INT and LONG operands an operator never rounds or wraps. With a zero divisor there is no
      exact result and it says so; otherwise there is one, and the guarded or widened computation
      gives it in the wider of the two operand types, or an overflow exactly when it does not fit. */
  lemma IntegerOperatorsAreExact(fpu: Fpu, op: BinOp, a: Value, b: Value)
    requires IsArithmetic(op)
    requires (a.IntV? || a.LongV?) && (b.IntV? || b.LongV?)
    ensures
      var r, x, y, wide := ApplyBin(fpu, op, a, b), Integer(a), Integer(b), a.LongV? || b.LongV?;
      if op.Div? && y == 0 then r == Fail(DivZero)
      else exists q :: IsExact(op, x, y, q) &&
             r == if Fits(q, wide) then OpResult(Ok, if wide then LongV(q) else IntV(q)) else Fail(Overflow)
  {
    hide ApplyBin, WideArith, NarrowArith, IsRemainder;
    ApplyIntegers(fpu, op, a, b);
    var x, y := Integer(a), Integer(b);
    if !(op.Div? && y == 0) {
      var q := if op.Add? then x + y else if op.Sub? then x - y else if op.Mul? then x * y else TruncDiv(x, y);
      if op.Div? { TruncDivRemainder(x, y); }
      assert IsExact(op, x, y, q);
      if a.LongV? || b.LongV? { WideIsExact(op, x, y, q); } else { NarrowIsExact(op, x, y, q); }
    }
  }

  /** Comparing INTs, LONGs or DATEs is comparing the numbers they stand for. */
  lemma IntegerComparisonsAreExact(fpu: Fpu, op: BinOp, a: Value, b: Value)
    requires IsRelational(op)
    requires ((a.IntV? || a.LongV?) && (b.IntV? || b.LongV?)) || (a.DateV? && b.DateV?)
    ensures
      var (x, y) := if a.DateV? then (a.d as int, b.d as int) else (Integer(a), Integer(b));
      ApplyBin(fpu, op, a, b) ==
        OpResult(Ok, BoolV(match op case Eq => x == y case Ne => x != y case Lt => x < y
                                    case Gt => x > y case Le => x <= y case _ => x >= y))
  {
  }

  /** Adding days to a date and taking them off again gives the date back. */
  lemma DateShiftRoundTrip(fpu: Fpu, d: int64, n: Value)
    requires n.IntV? || n.LongV?
    requires ApplyBin(fpu, Add, DateV(d), n).st == Ok
    ensures
      var shifted := ApplyBin(fpu, Add, DateV(d), n).out;
      && shifted == DateV(d + Integer(n) * SECONDS_PER_DAY)
      && ApplyBin(fpu, Add, n, DateV(d)).out == shifted
      && ApplyBin(fpu, Sub, shifted, n) == OpResult(Ok, DateV(d))
  {
    hide PortableMulOk, WideArith, NarrowArith;
    PortableMulExact(Integer(n), SECONDS_PER_DAY);
  }

  /** A date takes a shift by days exactly when the days are a 64-bit number of seconds and the
      shifted date is one too. */
  lemma DateShiftExactly(fpu: Fpu, d: int64, n: Value, subtract: bool)
    requires n.IntV? || n.LongV?
    ensures
      var seconds := Integer(n) * SECONDS_PER_DAY;
      var shifted := if subtract then d - seconds else d + seconds;
      ApplyBin(fpu, if subtract then Sub else Add, DateV(d), n) ==
      if InLong(seconds) && InLong(shifted) then OpResult(Ok, DateV(shifted)) else Fail(Overflow)
  {
    hide PortableMulOk, WideArith, NarrowArith;
    PortableMulExact(Integer(n), SECONDS_PER_DAY);
  }

  /** A FLOAT shift takes the whole seconds of a finite number of days, up to 2^62 either way. */
  lemma FloatShiftExactly(fpu: Fpu, d: int64, f: bits64, subtract: bool)
    ensures
      var s := fpu.daySeconds(f);
      ApplyBin(fpu, if subtract then Sub else Add, DateV(d), FloatV(f)) ==
      if s.Some? && -0x4000_0000_0000_0000 <= s.value <= 0x4000_0000_0000_0000 &&
         InLong(if subtract then d - s.value else d + s.value)
      then OpResult(Ok, DateV(if subtract then d - s.value else d + s.value))
      else Fail(Overflow)
  {
    hide PortableMulOk, WideArith, NarrowArith;
  }

  /** The distance from a date to its shift is the shift, unless that many days do not fit an
      INT, which only a LONG shift can cause. */
  lemma DateDistanceRoundTrip(fpu: Fpu, d: int64, n: Value)
    requires n.IntV? || n.LongV?
    requires ApplyBin(fpu, Add, DateV(d), n).st == Ok
    ensures
      var r := ApplyBin(fpu, Sub, ApplyBin(fpu, Add, DateV(d), n).out, DateV(d));
      if InInt(Integer(n)) then r == OpResult(Ok, IntV(Integer(n))) else r == Fail(Overflow)
  {
    hide PortableMulOk, WideArith, NarrowArith;
    var k := Integer(n);
    PortableMulExact(k, SECONDS_PER_DAY);
    TruncDivCharacterised(k * SECONDS_PER_DAY, SECONDS_PER_DAY, k);
  }

  // ----- what the operators mean on other operands -----

  /** NEG gives the number that adds up to zero with its operand, in the operand's own type, or an
      overflow exactly when that type does not hold it. */
  lemma NegationIsExact(fpu: Fpu, v: Value)
    requires v.IntV? || v.LongV?
    ensures exists q: int :: Opposite(q, Integer(v)) &&
              ApplyUn(Neg, fpu, v) ==
              if Fits(q, v.LongV?) then OpResult(Ok, if v.LongV? then LongV(q) else IntV(q)) else Fail(Overflow)
  {
    assert Opposite(-Integer(v), Integer(v));
  }

  ghost predicate Opposite(q: int, x: int) { q + x == 0 }

  /** NOT is true exactly of the BOOL false, the INT 0 and VOID, and defined for no other types;
      NEG is for numbers only. */
  lemma UnaryOperatorsExactly(fpu: Fpu, v: Value)
    ensures ApplyUn(Not, fpu, v) ==
            if v.BoolV? || v.IntV? || v.Void? then
              OpResult(if v.Void? then VoidOperand else Ok, BoolV(v in {BoolV(false), IntV(0)} || v.Void?))
            else Fail(TypeError)
    ensures !v.IntV? && !v.LongV? ==>
              ApplyUn(Neg, fpu, v) ==
              if v.FloatV? then OpResult(Ok, FloatV(fpu.neg(v.f))) else Fail(if v.Void? then VoidOperand else TypeError)
  {
  }

  /** What a comparison of two ordered things means. */
  predicate Holds(op: BinOp, below: bool, equal: bool)
    requires IsRelational(op)
  {
    match op
    case Eq => equal
    case Ne => !equal
    case Lt => below
    case Le => below || equal
    case Gt => !below && !equal
    case _ => !below
  }

  /** BOOLs are ordered, false before true; they take no arithmetic. */
  lemma BoolComparisonsAreExact(fpu: Fpu, op: BinOp, a: bool, b: bool)
    ensures ApplyBin(fpu, op, BoolV(a), BoolV(b)) ==
            if IsRelational(op) then OpResult(Ok, BoolV(Holds(op, !a && b, a <==> b))) else Fail(TypeError)
  {
  }

  /** Strings are only told apart. */
  lemma StringComparisonsAreExact(fpu: Fpu, op: BinOp, a: string, b: string)
    ensures ApplyBin(fpu, op, StrV(a), StrV(b)) ==
            if op.Eq? then OpResult(Ok, BoolV(a == b))
            else if op.Ne? then OpResult(Ok, BoolV(a != b))
            else Fail(TypeError)
  {
  }

  /** VOID makes every comparison false and every other operation VOID, except that a zero divisor
      is a division by zero whatever is divided. */
  lemma VoidOperandsGive(fpu: Fpu, op: BinOp, a: Value, b: Value)
    requires a.Void? || b.Void?
    ensures ApplyBin(fpu, op, a, b) ==
            if op.Div? && (b in {IntV(0), LongV(0)} || (b.FloatV? && fpu.isZero(b.f))) then OpResult(DivZero, VoidV)
            else OpResult(VoidOperand, if IsRelational(op) then BoolV(false) else VoidV)
  {
  }

  /** A FLOAT and another number: the other one is converted, operands stay in order, and only a
      zero divisor, before or after its conversion, is refused. */
  lemma FloatOperators(fpu: Fpu, op: BinOp, a: Value, b: Value)
    requires !IsLogical(op)
    requires (a.FloatV? && (b.FloatV? || b.IntV? || b.LongV?)) || (b.FloatV? && (a.IntV? || a.LongV?))
    ensures
      var x := if a.FloatV? then a.f else fpu.ofInt(Integer(a));
      var y := if b.FloatV? then b.f else fpu.ofInt(Integer(b));
      ApplyBin(fpu, op, a, b) ==
      if IsRelational(op) then OpResult(Ok, BoolV(fpu.cmp(op, x, y)))
      else if op.Div? && (b in {IntV(0), LongV(0)} || fpu.isZero(y)) then Fail(DivZero)
      else OpResult(Ok, FloatV(fpu.arith(op, x, y)))
  {
  }

  /** The difference of two dates is the whole days between them, truncated toward zero, as an INT;
      a number of days may stand on either side of a plus. */
  lemma DateArithmeticExactly(fpu: Fpu, d: int64, e: int64, n: Value)
    ensures
      var seconds := d - e;
      var r := ApplyBin(fpu, Sub, DateV(d), DateV(e));
      if -0x8000_0000 * 86400 <= seconds <= 0x7fff_ffff * 86400
      then r.st == Ok && r.out.IntV? && IsRemainder(seconds - r.out.i * 86400, seconds, 86400)
      else r == Fail(Overflow)
    ensures !n.DateV? ==> ApplyBin(fpu, Add, n, DateV(d)) == ApplyBin(fpu, Add, DateV(d), n)
    ensures n.IntV? ==> ApplyBin(fpu, Add, DateV(0), n) == OpResult(Ok, DateV(n.i * 86400))
  {
    hide WideArith, NarrowArith;
    if n.IntV? { DateShiftExactly(fpu, 0, n, false); }
  }

  /** What may stand beside what: any other pair of types is a type error for every operator. */
  lemma OtherPairsAreTypeErrors(fpu: Fpu, op: BinOp, a: Value, b: Value)
    requires !a.Void? && !b.Void? && !(op.Div? && IsZeroDivisor(fpu, b))
    ensures ApplyBin(fpu, op, a, b).st == TypeError <==>
            !(|| (a.StrV? && b.StrV? && (op.Eq? || op.Ne?))
              || (a.BoolV? && b.BoolV? && IsRelational(op))
              || (a.DateV? && b.DateV? && (IsRelational(op) || op.Sub?))
              || (a.DateV? && (b.IntV? || b.LongV? || b.FloatV?) && (op.Add? || op.Sub?))
              || (b.DateV? && (a.IntV? || a.LongV? || a.FloatV?) && op.Add?)
              || ((a.IntV? || a.LongV? || a.FloatV?) && (b.IntV? || b.LongV? || b.FloatV?) && !IsLogical(op)))
  {
    hide PortableAddOk, PortableSubOk, PortableMulOk, TruncDiv;
  }

  /** The bits a test reads: the low half of a 64-bit word, so a LONG, DATE or FLOAT is false at
      every multiple of 2^32. */
  lemma TruthExactly(v: Value)
    ensures match v
            case BoolV(b) => Truth(v) == b
            case IntV(i) => Truth(v) == (i != 0)
            case LongV(l) => Truth(v) <==> !exists k: int :: l == k * 0x1_0000_0000
            case DateV(d) => Truth(v) <==> !exists k: int :: d == k * 0x1_0000_0000
            case FloatV(f) => Truth(v) <==> !exists k: int :: f == k * 0x1_0000_0000
            case Void(word) => Truth(v) == (word != 0)
            case _ => Truth(v)
  {
    if v.LongV? { MultiplesOfWord(v.l); }
    if v.DateV? { MultiplesOfWord(v.d); }
    if v.FloatV? { MultiplesOfWord(v.f); }
  }

  lemma MultiplesOfWord(x: int)
    ensures x % 0x1_0000_0000 == 0 <==> exists k: int :: x == k * 0x1_0000_0000
  {
    if x % 0x1_0000_0000 == 0 { assert x == (x / 0x1_0000_0000) * 0x1_0000_0000; }
  }
}
