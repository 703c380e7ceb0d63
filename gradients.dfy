/** `GradientsCollector`: one gradient set per device, collected while the
    graph is built, averaged when the training op is created. */
module Gradients {
  import opened Wrappers

  /** The graph op `util.average_gradients(sets)` builds; its numerics are
      outside this model, only the list it averages is recorded. */
  datatype AveragedGradients<G> = AveragedGradients(sets: seq<G>)

  class GradientsCollector<G> {
    var gradients: seq<G>
    const nDevices: int

    /** At most one set per device has been collected. */
    ghost predicate Valid()
      reads this
    {
      gradients == [] || |gradients| <= nDevices
    }

    constructor (nDevices: int := 1)
      ensures Valid()
      ensures gradients == [] && this.nDevices == nDevices
    {
      gradients := [];
      this.nDevices := nDevices;
    }

    /** The index of the device whose set comes next. */
    function CurrentTowerId(): nat
      reads this
    {
      |gradients|
    }

    /** Appends one device's set; fails once every device has contributed. */
    method AddToCollection(g: G) returns (r: Outcome)
      requires Valid()
      modifies this
      ensures Valid()
      ensures old(CurrentTowerId()) < nDevices ==> r == Pass && gradients == old(gradients) + [g]
      ensures old(CurrentTowerId()) >= nDevices ==> r == Fail(DeviceCountExceeded) && gradients == old(gradients)
    {
      if CurrentTowerId() >= nDevices {
        return Fail(DeviceCountExceeded);
      }
      gradients := gradients + [g];
      r := Pass;
    }

    /** The averaged gradients; fails when no set has been collected. */
    function Gradients(): (r: Result<AveragedGradients<G>>)
      reads this
      ensures r.Err? <==> gradients == []
      ensures r.Err? ==> r.error == NoGradientsCollected
      ensures r.Ok? ==> r.value.sets == gradients && |r.value.sets| >= 1
    {
      if gradients == [] then Err(NoGradientsCollected) else Ok(AveragedGradients(gradients))
    }
  }

  /** With two devices: two sets are accepted in device order, a third is
      refused, and the average covers exactly the two. */
  method TwoDeviceScenario<G>(g0: G, g1: G, g2: G) returns (third: Outcome, avg: Result<AveragedGradients<G>>)
    ensures third == Fail(DeviceCountExceeded)
    ensures avg == Ok(AveragedGradients([g0, g1]))
  {
    var c := new GradientsCollector<G>(2);
    var before := c.Gradients();
    assert before == Err(NoGradientsCollected);
    var r0 := c.AddToCollection(g0);
    var r1 := c.AddToCollection(g1);
    assert r0 == Pass && r1 == Pass;
    assert c.gradients == [g0, g1];
    third := c.AddToCollection(g2);
    avg := c.Gradients();
  }
}
