/** What the mutations do to a program, said with the meaning of Go's operators and without the
    tables, and that the tables are the only ones that do it (internal/engine/mappings.go). */
module MutationMeaning {
  import opened Mutation

  // ---- Operators ----

  predicate IsComparison(t: Token) {
    t == Eql || t == Neq || t == Lss || t == Leq || t == Gtr || t == Geq
  }

  predicate Compare(t: Token, a: int, b: int)
    requires IsComparison(t)
  {
    match t
    case Eql => a == b
    case Neq => a != b
    case Lss => a < b
    case Leq => a <= b
    case Gtr => a > b
    case _ => a >= b
  }

  predicate IsArithmetic(t: Token) {
    t == Add || t == Sub || t == Mul || t == Quo || t == Rem
  }

  function Abs(a: int): nat { if a < 0 then -a else a }

  /** Division truncates towards zero. */
  function Quotient(a: int, b: int): int
    requires b != 0
  {
    if (a < 0) == (b < 0) then Abs(a) / Abs(b) else -(Abs(a) / Abs(b))
  }

  function Compute(t: Token, a: int, b: int): int
    requires IsArithmetic(t) && b != 0
  {
    match t
    case Add => a + b
    case Sub => a - b
    case Mul => a * b
    case Quo => Quotient(a, b)
    case _ => a - b * Quotient(a, b)
  }

  predicate IsBitwise(t: Token) {
    t == And || t == Or || t == Xor || t == AndNot
  }

  /** What the operator does to each pair of bits. */
  predicate Bit(t: Token, a: bool, b: bool)
    requires IsBitwise(t)
  {
    match t
    case And => a && b
    case Or => a || b
    case Xor => a != b
    case _ => a && !b
  }

  predicate IsShift(t: Token) { t == Shl || t == Shr }

  function Power(k: nat): (p: nat)
    ensures p > 0
  {
    if k == 0 then 1 else 2 * Power(k - 1)
  }

  /** A right shift rounds down. */
  function Shift(t: Token, a: int, k: nat): int
    requires IsShift(t)
  {
    if t == Shl then a * Power(k) else a / Power(k)
  }

  predicate IsLogical(t: Token) { t == LAnd || t == LOr }

  predicate Combine(t: Token, a: bool, b: bool)
    requires IsLogical(t)
  {
    if t == LAnd then a && b else a || b
  }

  predicate IsStep(t: Token) { t == Inc || t == Dec }

  function Stepped(t: Token, x: int): int
    requires IsStep(t)
  {
    if t == Inc then x + 1 else x - 1
  }

  /** The operator of an assignment such as +=. */
  function OperatorOf(t: Token): Option<Token> {
    match t
    case AddAssign => Some(Add)
    case SubAssign => Some(Sub)
    case MulAssign => Some(Mul)
    case QuoAssign => Some(Quo)
    case RemAssign => Some(Rem)
    case AndAssign => Some(And)
    case OrAssign => Some(Or)
    case XorAssign => Some(Xor)
    case ShlAssign => Some(Shl)
    case ShrAssign => Some(Shr)
    case AndNotAssign => Some(AndNot)
    case _ => None
  }

  // ---- What each type of mutant does ----

  /** A negated condition has the opposite value, always. */
  ghost predicate Negates(t: Token, u: Token) {
    IsComparison(t) && IsComparison(u) && forall a, b :: Compare(u, a, b) != Compare(t, a, b)
  }

  predicate IsOrdering(t: Token) { t == Lss || t == Leq || t == Gtr || t == Geq }

  /** A moved boundary changes the value exactly on equal operands. */
  ghost predicate MovesBoundary(t: Token, u: Token) {
    IsOrdering(t) && IsComparison(u) && forall a, b :: Compare(u, a, b) != Compare(t, a, b) <==> a == b
  }

  /** Plus and minus change places around the first operand. */
  ghost predicate Mirrors(t: Token, u: Token) {
    IsArithmetic(t) && IsArithmetic(u) && forall a, b | b != 0 :: Compute(u, a, b) + Compute(t, a, b) == 2 * a
  }

  /** u divides what t multiplied. */
  ghost predicate Divides(t: Token, u: Token) {
    IsArithmetic(t) && IsArithmetic(u) && forall a, b | b != 0 :: Compute(u, Compute(t, a, b), b) == a
  }

  ghost predicate ChangesArithmetic(t: Token, u: Token) {
    match t
    case Add => Mirrors(t, u)
    case Sub => Mirrors(t, u)
    case Mul => Divides(t, u)
    case Quo => Divides(u, t)
    case Rem => Divides(u, Quo)
    case _ => false
  }

  /** And and Or agree exactly on equal bits; the others lose every bit they had. */
  ghost predicate ChangesBits(t: Token, u: Token) {
    match t
    case And => IsBitwise(u) && forall a, b :: Bit(u, a, b) == Bit(t, a, b) <==> a == b
    case Or => IsBitwise(u) && forall a, b :: Bit(u, a, b) == Bit(t, a, b) <==> a == b
    case Xor => IsBitwise(u) && forall a, b :: !(Bit(u, a, b) && Bit(t, a, b))
    case AndNot => IsBitwise(u) && forall a, b :: !(Bit(u, a, b) && Bit(t, a, b))
    case Shl => IsShift(u) && forall a, k :: Shift(u, Shift(t, a, k), k) == a
    case Shr => IsShift(u) && forall a, k :: Shift(t, Shift(u, a, k), k) == a
    case _ => false
  }

  /** What a mutant of this type makes of t; u is the new token. */
  ghost predicate Mutates(kind: Kind, t: Token, u: Token) {
    match kind
    case ArithmeticBase => ChangesArithmetic(t, u)
    case ConditionalsBoundary => MovesBoundary(t, u)
    case ConditionalsNegation => Negates(t, u)
    case IncrementDecrement =>
      IsStep(t) && IsStep(u) && forall x :: Stepped(u, x) + Stepped(t, x) == 2 * x
    case InvertAssignments =>
      && OperatorOf(t).Some? && OperatorOf(u).Some?
      && if t == RemAssign then u == t else ChangesArithmetic(OperatorOf(t).value, OperatorOf(u).value)
    case InvertBitwise => ChangesBits(t, u)
    case InvertBitwiseAssignments =>
      OperatorOf(t).Some? && OperatorOf(u).Some? && ChangesBits(OperatorOf(t).value, OperatorOf(u).value)
    case InvertLogical =>
      IsLogical(t) && IsLogical(u) && forall a, b :: Combine(u, a, b) == Combine(t, a, b) <==> a == b
    case InvertLoopCtrl => t != u && {t, u} == {Break, Continue}
    case InvertNegatives => t == Sub && Mirrors(t, u)
    case RemoveSelfAssignments => OperatorOf(t).Some? && u == Assign
  }

  /** to is from with the one token at index turned into what the type says. */
  ghost predicate MutatesOne(kind: Kind, from: seq<Token>, index: nat, to: seq<Token>) {
    && index < |from| && |to| == |from|
    && (forall i :: 0 <= i < |from| && i != index ==> to[i] == from[i])
    && Mutates(kind, from[index], to[index])
  }

  // ---- Arithmetic ----

  lemma ExactQuotient(p: int, y: nat, q: int, r: nat, x: int)
    requires y > 0 && p == q * y + r && r < y && p == x * y
    ensures q == x
  {
    if x > q {
      TimesMonotone(q + 1, x, y);
    } else if x < q {
      TimesMonotone(x + 1, q, y);
    }
  }

  lemma {:induction false} TimesMonotone(a: int, b: int, y: nat)
    requires a <= b
    ensures a * y <= b * y && (a - 1) * y == a * y - y
    decreases b - a
  {
    if a < b {
      TimesMonotone(a + 1, b, y);
    }
  }

  lemma DivideBack(x: int, y: nat)
    requires y > 0
    ensures x * y / y == x
  {
    var p := x * y;
    ExactQuotient(p, y, p / y, p % y, x);
  }

  lemma QuotientOfProduct(a: int, b: int)
    requires b != 0
    ensures Quotient(a * b, b) == a
  {
    DivideBack(Abs(a), Abs(b));
    assert Abs(a * b) == Abs(a) * Abs(b);
    if a > 0 && b > 0 {
      assert a * b > 0;
    } else if a > 0 {
      assert a * -b > 0;
    } else if a < 0 && b > 0 {
      assert -a * b > 0;
    } else if a < 0 {
      assert -a * -b > 0;
    }
  }

  lemma MulAndQuoUndo()
    ensures Divides(Mul, Quo)
  {
    forall a, b | b != 0 ensures Compute(Quo, Compute(Mul, a, b), b) == a {
      QuotientOfProduct(a, b);
    }
  }

  lemma ShiftsUndo(a: int, k: nat)
    ensures Shift(Shr, Shift(Shl, a, k), k) == a
  {
    DivideBack(a, Power(k));
  }

  // ---- The tables do this ----

  lemma ArithmeticDoes(t: Token)
    requires IsArithmetic(t)
    ensures ChangesArithmetic(t, Replacement(ArithmeticBase, t))
  {
    MulAndQuoUndo();
  }

  lemma ShiftsDo(t: Token)
    requires IsShift(t)
    ensures ChangesBits(t, Replacement(InvertBitwise, t))
  {
    forall a, k ensures Shift(Shr, Shift(Shl, a, k), k) == a {
      ShiftsUndo(a, k);
    }
  }

  lemma BitwiseDoes(t: Token)
    requires IsBitwise(t) || IsShift(t)
    ensures ChangesBits(t, Replacement(InvertBitwise, t))
  {
    if IsShift(t) {
      ShiftsDo(t);
    }
  }

  /** An assignment is mutated as its operator, save the remainder, which stays. */
  lemma AssignmentsFollow(t: Token)
    requires OperatorOf(t).Some?
    ensures var op := OperatorOf(t).value;
            && (IsArithmetic(op) && t != RemAssign ==>
                  OperatorOf(Replacement(InvertAssignments, t)) == Some(Replacement(ArithmeticBase, op)))
            && (!IsArithmetic(op) ==>
                  OperatorOf(Replacement(InvertBitwiseAssignments, t)) == Some(Replacement(InvertBitwise, op)))
  {
  }

  lemma AssignmentsDo(t: Token)
    requires OperatorOf(t).Some?
    ensures var op := OperatorOf(t).value;
            && (IsArithmetic(op) ==> Mutates(InvertAssignments, t, Replacement(InvertAssignments, t)))
            && (!IsArithmetic(op) ==> Mutates(InvertBitwiseAssignments, t, Replacement(InvertBitwiseAssignments, t)))
  {
    var op := OperatorOf(t).value;
    AssignmentsFollow(t);
    if IsArithmetic(op) {
      ArithmeticDoes(op);
    } else {
      BitwiseDoes(op);
    }
  }

  lemma ConditionsDo(kind: Kind, t: Token)
    requires kind in KindsOf(t) && (kind == ConditionalsBoundary || kind == ConditionalsNegation)
    ensures Mutates(kind, t, Replacement(kind, t))
  {
  }

  lemma OthersDo(kind: Kind, t: Token)
    requires kind in KindsOf(t)
    requires kind in {IncrementDecrement, InvertLogical, InvertLoopCtrl, InvertNegatives, RemoveSelfAssignments}
    ensures Mutates(kind, t, Replacement(kind, t))
  {
  }

  /** Every discovered mutant does to its operator what its type says. */
  lemma ReplacementMutates(kind: Kind, t: Token)
    requires kind in KindsOf(t)
    ensures Mutates(kind, t, Replacement(kind, t))
  {
    match kind
    case ArithmeticBase => ArithmeticDoes(t);
    case InvertBitwise => BitwiseDoes(t);
    case InvertAssignments => AssignmentsDo(t);
    case InvertBitwiseAssignments => AssignmentsDo(t);
    case ConditionalsBoundary => ConditionsDo(kind, t);
    case ConditionalsNegation => ConditionsDo(kind, t);
    case _ => OthersDo(kind, t);
  }

  // ---- Nothing else does ----

  /** Three pairs of operands tell the comparisons apart. */
  lemma SameComparison(t: Token, u: Token)
    requires IsComparison(t) && IsComparison(u)
    requires Compare(t, 0, 0) == Compare(u, 0, 0) && Compare(t, 0, 1) == Compare(u, 0, 1)
             && Compare(t, 1, 0) == Compare(u, 1, 0)
    ensures t == u
  {
  }

  lemma OnlyOneNegates(t: Token, u: Token)
    requires Negates(t, u)
    ensures ConditionalsNegation in KindsOf(t) && u == Replacement(ConditionalsNegation, t)
  {
    var v := Replacement(ConditionalsNegation, t);
    ConditionsDo(ConditionalsNegation, t);
    forall a, b ensures Compare(u, a, b) == Compare(v, a, b) {
      assert Compare(u, a, b) != Compare(t, a, b);
    }
    SameComparison(u, v);
  }

  lemma OnlyOneMovesBoundary(t: Token, u: Token)
    requires MovesBoundary(t, u)
    ensures ConditionalsBoundary in KindsOf(t) && u == Replacement(ConditionalsBoundary, t)
  {
    var v := Replacement(ConditionalsBoundary, t);
    ConditionsDo(ConditionalsBoundary, t);
    forall a, b ensures Compare(u, a, b) == Compare(v, a, b) {
      assert Compare(u, a, b) != Compare(t, a, b) <==> a == b;
    }
    SameComparison(u, v);
  }

  lemma OnlyOneMirrors(t: Token, u: Token)
    requires (t == Add || t == Sub) && Mirrors(t, u)
    ensures u == if t == Add then Sub else Add
  {
    assert Compute(u, 7, 2) + Compute(t, 7, 2) == 14;
    assert Compute(Quo, 7, 2) == 3;
  }

  lemma OnlyOneDivides(u: Token)
    requires IsArithmetic(u)
    ensures Divides(Mul, u) ==> u == Quo
    ensures Divides(u, Quo) ==> u == Mul
  {
    if Divides(Mul, u) {
      assert Compute(u, Compute(Mul, 7, 2), 2) == 7;
    }
    if Divides(u, Quo) {
      assert Compute(Quo, Compute(u, 7, 2), 2) == 7;
    }
  }

  lemma OnlyOneChangesArithmetic(t: Token, u: Token)
    requires ChangesArithmetic(t, u)
    ensures ArithmeticBase in KindsOf(t) && u == Replacement(ArithmeticBase, t)
  {
    if t == Add || t == Sub {
      OnlyOneMirrors(t, u);
    } else {
      OnlyOneDivides(u);
    }
  }

  lemma OnlyOneChangesBits(t: Token, u: Token)
    requires ChangesBits(t, u)
    ensures InvertBitwise in KindsOf(t) && u == Replacement(InvertBitwise, t)
  {
    if t == And || t == Or {
      assert Bit(u, true, true) && (Bit(u, true, false) <==> !Bit(t, true, false));
    } else if t == Xor || t == AndNot {
      assert !(Bit(u, true, false) && Bit(t, true, false));
    } else {
      assert Power(1) == 2;
      assert t == Shl ==> Shift(u, Shift(t, 1, 1), 1) == 1;
      assert t == Shr ==> Shift(t, Shift(u, 1, 1), 1) == 1;
    }
  }

  lemma OneAssignmentPerOperator(t: Token, u: Token)
    requires OperatorOf(t).Some? && OperatorOf(t) == OperatorOf(u)
    ensures t == u
  {
  }

  lemma OnlyOneChangesAssignment(kind: Kind, t: Token, u: Token)
    requires (kind == InvertAssignments || kind == InvertBitwiseAssignments) && Mutates(kind, t, u)
    ensures kind in KindsOf(t) && u == Replacement(kind, t)
  {
    var op, op' := OperatorOf(t).value, OperatorOf(u).value;
    AssignmentsFollow(t);
    if t != RemAssign {
      if kind == InvertAssignments {
        OnlyOneChangesArithmetic(op, op');
      } else {
        OnlyOneChangesBits(op, op');
      }
      OneAssignmentPerOperator(u, Replacement(kind, t));
    }
  }

  lemma OnlyOneOther(kind: Kind, t: Token, u: Token)
    requires kind in {IncrementDecrement, InvertLogical, InvertLoopCtrl, RemoveSelfAssignments} && Mutates(kind, t, u)
    ensures kind in KindsOf(t) && u == Replacement(kind, t)
  {
    match kind
    case IncrementDecrement => assert Stepped(u, 0) + Stepped(t, 0) == 0;
    case InvertLogical => assert Combine(u, true, false) != Combine(t, true, false);
    case InvertLoopCtrl => assert t in {t, u} && u in {t, u} && Break in {t, u};
    case RemoveSelfAssignments =>
  }

  lemma OnlyTheTable(kind: Kind, t: Token, u: Token)
    requires Mutates(kind, t, u)
    ensures kind in KindsOf(t) && u == Replacement(kind, t)
  {
    match kind
    case ArithmeticBase => OnlyOneChangesArithmetic(t, u);
    case ConditionalsBoundary => OnlyOneMovesBoundary(t, u);
    case ConditionalsNegation => OnlyOneNegates(t, u);
    case InvertBitwise => OnlyOneChangesBits(t, u);
    case InvertAssignments => OnlyOneChangesAssignment(kind, t, u);
    case InvertBitwiseAssignments => OnlyOneChangesAssignment(kind, t, u);
    case InvertNegatives => OnlyOneMirrors(t, u);
    case _ => OnlyOneOther(kind, t, u);
  }

  /** The tables are exactly what the types mean: a mutant of this type is discovered on t and
      puts u there iff u does to t what the type says. */
  lemma TablesMeanTheTypes(kind: Kind, t: Token, u: Token)
    ensures kind in KindsOf(t) && u == Replacement(kind, t) <==> Mutates(kind, t, u)
  {
    if kind in KindsOf(t) {
      ReplacementMutates(kind, t);
    }
    if Mutates(kind, t, u) {
      OnlyTheTable(kind, t, u);
    }
  }

  // ---- Laws of the tables ----

  /** A type is tried on a token iff the table has an entry for it. */
  lemma KindsHaveReplacements(kind: Kind, t: Token)
    ensures kind in KindsOf(t) <==> Replacement(kind, t) != Illegal
  {
  }

  /** Operators without a partner of their own, and types that go one way. */
  predicate GoesOneWay(kind: Kind, t: Token) {
    || (kind == ArithmeticBase && t == Rem) || t == Xor || t == AndNot
    || (kind == InvertBitwiseAssignments && (t == XorAssign || t == AndNotAssign))
    || kind == InvertNegatives || kind == RemoveSelfAssignments
  }

  lemma TwiceArithmetic(kind: Kind, t: Token)
    requires kind in KindsOf(t) && kind in {ArithmeticBase, InvertAssignments, InvertNegatives, RemoveSelfAssignments}
    ensures Replacement(kind, Replacement(kind, t)) == t <==> !GoesOneWay(kind, t)
  {
  }

  lemma TwiceBitwise(kind: Kind, t: Token)
    requires kind in KindsOf(t) && kind in {InvertBitwise, InvertBitwiseAssignments}
    ensures Replacement(kind, Replacement(kind, t)) == t <==> !GoesOneWay(kind, t)
  {
  }

  lemma TwiceOther(kind: Kind, t: Token)
    requires kind in KindsOf(t)
    requires kind in {ConditionalsBoundary, ConditionalsNegation, IncrementDecrement, InvertLogical, InvertLoopCtrl}
    ensures Replacement(kind, Replacement(kind, t)) == t <==> !GoesOneWay(kind, t)
  {
  }

  /** A mutant of a mutant of the same type is the program again, unless it goes one way. */
  lemma TwiceGivesBack(kind: Kind, t: Token)
    requires kind in KindsOf(t)
    ensures Replacement(kind, Replacement(kind, t)) == t <==> !GoesOneWay(kind, t)
  {
    match kind
    case ArithmeticBase => TwiceArithmetic(kind, t);
    case InvertAssignments => TwiceArithmetic(kind, t);
    case InvertNegatives => TwiceArithmetic(kind, t);
    case RemoveSelfAssignments => TwiceArithmetic(kind, t);
    case InvertBitwise => TwiceBitwise(kind, t);
    case InvertBitwiseAssignments => TwiceBitwise(kind, t);
    case _ => TwiceOther(kind, t);
  }

  /** No type is tried twice, and the mutants of one token come in the order of the table:
      negative before arithmetic, boundary before negation, assignment types with the arithmetic
      one first and the bitwise one last. */
  lemma KindsInOrder(t: Token)
    ensures |KindsOf(t)| <= 2
    ensures |KindsOf(t)| == 2 ==>
              var first, second := KindsOf(t)[0], KindsOf(t)[1];
              || (first == InvertNegatives && second == ArithmeticBase)
              || (first == ConditionalsBoundary && second == ConditionalsNegation)
              || (first == InvertAssignments && second == RemoveSelfAssignments)
              || (first == RemoveSelfAssignments && second == InvertBitwiseAssignments)
  {
  }
}
