/**
 * The two behaviour interfaces (domain/behavior/MovementBehavior.java and
 * FruitMovementBehavior.java) as closed unions of the behaviours the game builds.
 * The cherry's CherryMovement is included among the fruit behaviours: it is the
 * behaviour the game runs for a cherry.
 */
module Behaviors {
  import TrollTurnRight
  import MacetaChase
  import Narval
  import OrangeSquid
  import Pineapple
  import Cherry

  /** An enemy's movement behaviour. */
  datatype MovementBehavior =
    | Troll(troll: TrollTurnRight.TrollTurnRightMovement)
    | Maceta(maceta: MacetaChase.MacetaChaseMovement)
    | Narwhal(narwhal: Narval.NarvalMovement)
    | Squid(squid: OrangeSquid.OrangeSquidMovement)
  {
    /** The behaviour object that holds this behaviour's state. */
    function Obj(): object {
      match this
      case Troll(t) => t
      case Maceta(m) => m
      case Narwhal(n) => n
      case Squid(s) => s
    }

    /** The behaviour object is in a state its move accepts. */
    ghost predicate Ready()
      reads Obj()
    {
      Squid? ==> squid.Valid()
    }
  }

  /** A moving fruit's behaviour. */
  datatype FruitBehavior =
    | PineappleWalk(pineapple: Pineapple.PineappleMovement)
    | CherryTeleport(cherry: Cherry.CherryMovement)
  {
    function Obj(): object {
      match this
      case PineappleWalk(p) => p
      case CherryTeleport(c) => c
    }

    ghost predicate Ready()
      reads Obj()
    {
      match this
      case PineappleWalk(p) => p.Valid()
      case CherryTeleport(c) => c.Valid()
    }
  }
}
