/** The three-valued logic of the configuration language: n < m < y. */
module Tristate {

  datatype Tri = No | Mod | Yes {
    function Rank(): (r: nat)
      ensures r <= 2
    {
      match this
      case No => 0
      case Mod => 1
      case Yes => 2
    }

    /** The text a bool or tristate symbol shows in a comparison. */
    function Name(): string {
      match this
      case No => "n"
      case Mod => "m"
      case Yes => "y"
    }

    predicate AtMost(other: Tri) {
      Rank() <= other.Rank()
    }
  }

  function And(a: Tri, b: Tri): Tri {
    if a.Rank() < b.Rank() then a else b
  }

  function Or(a: Tri, b: Tri): Tri {
    if a.Rank() > b.Rank() then a else b
  }

  function Not(a: Tri): Tri {
    match a
    case No => Yes
    case Mod => Mod
    case Yes => No
  }

  function FromBool(b: bool): Tri {
    if b then Yes else No
  }

  /** m counts as undecided: a refinement may settle an m but never contradicts an n or a y. */
  predicate Refines(a: Tri, b: Tri) {
    a != Mod ==> b == a
  }
}
