/** Tree statistics that the balancing code updates as it runs. */
module AvlStats {
  import opened AvlSpec

  class AvlStatistics {
    var llRotations: nat
    var rrRotations: nat
    var lrRotations: nat
    var rlRotations: nat
    var treeHeight: nat
    var maximumHeight: nat

    constructor ()
      ensures Rotations() == Counts(0, 0, 0, 0) && treeHeight == 0 && maximumHeight == 0
    {
      llRotations, rrRotations, lrRotations, rlRotations := 0, 0, 0, 0;
      treeHeight, maximumHeight := 0, 0;
    }

    ghost function Rotations(): Counts
      reads this
    {
      Counts(llRotations, rrRotations, lrRotations, rlRotations)
    }
  }
}
