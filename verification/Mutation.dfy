/** Statuses, mutant types, tokens and the two tables that drive discovery and
    mutation (internal/mutator/mutator.go, internal/engine/mappings.go). */
module Mutation {

  datatype Option<+T> = None | Some(value: T)

  newtype byte = x: int | 0 <= x < 256

  type Bytes = seq<byte>

  type Path = string

  datatype Status = NotCovered | Runnable | Skipped | Lived | Killed | NotViable | TimedOut

  datatype Kind =
    | ArithmeticBase
    | ConditionalsBoundary
    | ConditionalsNegation
    | IncrementDecrement
    | InvertAssignments
    | InvertBitwise
    | InvertBitwiseAssignments
    | InvertLogical
    | InvertLoopCtrl
    | InvertNegatives
    | RemoveSelfAssignments

  /** Illegal is Go's zero token; Other stands for every token no table mentions. */
  datatype Token =
    | Illegal
    | Add | Sub | Mul | Quo | Rem
    | And | Or | Xor | Shl | Shr | AndNot
    | AddAssign | SubAssign | MulAssign | QuoAssign | RemAssign
    | AndAssign | OrAssign | XorAssign | ShlAssign | ShrAssign | AndNotAssign
    | LAnd | LOr | Inc | Dec
    | Eql | Lss | Gtr | Neq | Leq | Geq
    | Assign | Break | Continue
    | Other(code: nat)

  /** Lines of real positions count from one. */
  type LineNumber = x: int | 1 <= x witness 1

  datatype Position = Position(filename: Path, line: int, column: int)

  /** The mutant types a token admits, in table order. A token without a row yields none. */
  function KindsOf(t: Token): (ks: seq<Kind>)
    ensures |ks| <= 2
  {
    match t
    case Add | Mul | Quo | Rem => [ArithmeticBase]
    case Sub => [InvertNegatives, ArithmeticBase]
    case AddAssign | SubAssign | MulAssign | QuoAssign | RemAssign =>
      [InvertAssignments, RemoveSelfAssignments]
    case And | Or | Xor | Shl | Shr | AndNot => [InvertBitwise]
    case AndAssign | OrAssign | XorAssign | ShlAssign | ShrAssign | AndNotAssign =>
      [RemoveSelfAssignments, InvertBitwiseAssignments]
    case Break | Continue => [InvertLoopCtrl]
    case Inc | Dec => [IncrementDecrement]
    case Eql | Neq => [ConditionalsNegation]
    case Geq | Gtr | Leq | Lss => [ConditionalsBoundary, ConditionalsNegation]
    case LAnd | LOr => [InvertLogical]
    case _ => []
  }

  /** tokenMutations[kind][t]; a missing entry reads as the zero token. */
  function Replacement(kind: Kind, t: Token): Token {
    match kind
    case ArithmeticBase =>
      (match t case Add => Sub case Mul => Quo case Quo => Mul case Rem => Mul case Sub => Add case _ => Illegal)
    case ConditionalsBoundary =>
      (match t case Geq => Gtr case Gtr => Geq case Leq => Lss case Lss => Leq case _ => Illegal)
    case ConditionalsNegation =>
      (match t case Eql => Neq case Geq => Lss case Gtr => Leq case Leq => Gtr case Lss => Geq case Neq => Eql
               case _ => Illegal)
    case IncrementDecrement =>
      (match t case Dec => Inc case Inc => Dec case _ => Illegal)
    case InvertAssignments =>
      (match t case AddAssign => SubAssign case MulAssign => QuoAssign case QuoAssign => MulAssign
               case RemAssign => RemAssign case SubAssign => AddAssign case _ => Illegal)
    case InvertBitwise =>
      (match t case And => Or case Or => And case Xor => And case AndNot => And case Shl => Shr case Shr => Shl
               case _ => Illegal)
    case InvertBitwiseAssignments =>
      (match t case AndAssign => OrAssign case OrAssign => AndAssign case XorAssign => AndAssign
               case AndNotAssign => AndAssign case ShlAssign => ShrAssign case ShrAssign => ShlAssign
               case _ => Illegal)
    case InvertLogical =>
      (match t case LAnd => LOr case LOr => LAnd case _ => Illegal)
    case InvertLoopCtrl =>
      (match t case Break => Continue case Continue => Break case _ => Illegal)
    case InvertNegatives =>
      (match t case Sub => Add case _ => Illegal)
    case RemoveSelfAssignments =>
      (match t
       case AddAssign | AndAssign | AndNotAssign | MulAssign | OrAssign | QuoAssign | RemAssign
          | ShlAssign | ShrAssign | SubAssign | XorAssign => Assign
       case _ => Illegal)
  }

  /** Discovery and Apply agree: a discovered mutant always has a replacement, and the
      replacement is a different token except for the one row of the table that maps
      a token to itself. */
  lemma DiscoveredMutantChangesItsToken(kind: Kind, t: Token)
    requires kind in KindsOf(t)
    ensures Replacement(kind, t) != Illegal
    ensures Replacement(kind, t) == t <==> kind == InvertAssignments && t == RemAssign
  {
  }
}
